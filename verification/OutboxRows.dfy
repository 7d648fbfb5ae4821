/** Outbox rows and the statements that change them
    (crates/gateway-storage/src/outbox.rs). Instants are nanoseconds. */
module OutboxRows {
  import opened Common

  datatype Claim = Claim(holder: string, until: Instant)

  datatype Row = Row(
    merchant: Option<Id>, target: Option<Id>, attempts: nat, floor: nat, availableAt: Instant,
    deliveredAt: Option<Instant>, deadAt: Option<Instant>, lastError: Option<string>, claim: Option<Claim>)

  type Rows = map<Id, Row>

  predicate Live(r: Row) { r.deliveredAt.None? && r.deadAt.None? }

  predicate Due(r: Row, now: Instant) {
    Live(r) && r.availableAt <= now && (r.claim.None? || r.claim.value.until < now)
  }

  // ----- which rows a claim takes -----

  function DueSet(rows: Rows, now: Instant): set<Id> {
    set id | id in rows && Due(rows[id], now)
  }

  /** The queue order: by availability, then by identity. */
  predicate NotAfter(rows: Rows, a: Id, b: Id)
    requires a in rows && b in rows
  {
    rows[a].availableAt < rows[b].availableAt || (rows[a].availableAt == rows[b].availableAt && a <= b)
  }

  /** The members of `s` up to and including `x`; their number is `x`'s position. */
  function UpTo(rows: Rows, s: set<Id>, x: Id): set<Id>
    requires s <= rows.Keys && x in rows
  {
    set y | y in s && NotAfter(rows, y, x)
  }

  function SameMerchant(rows: Rows, s: set<Id>, merchant: Option<Id>): (r: set<Id>)
    requires s <= rows.Keys
    ensures r <= s
  {
    set y | y in s && rows[y].merchant == merchant
  }

  /** The first `k` members of `s`. */
  function FirstOf(rows: Rows, s: set<Id>, k: nat): (r: set<Id>)
    requires s <= rows.Keys
    ensures r <= s
  {
    set x | x in s && |UpTo(rows, s, x)| <= k
  }

  /** Due rows whose position among their merchant's due rows is within the bound. */
  function Ranked(rows: Rows, now: Instant, perMerchant: nat): (r: set<Id>)
    ensures r <= DueSet(rows, now) <= rows.Keys
  {
    var due := DueSet(rows, now);
    set x | x in due && x in FirstOf(rows, SameMerchant(rows, due, rows[x].merchant), perMerchant)
  }

  function Chosen(rows: Rows, now: Instant, limit: nat, perMerchant: nat): (r: set<Id>)
    ensures r <= Ranked(rows, now, perMerchant)
  {
    FirstOf(rows, Ranked(rows, now, perMerchant), limit)
  }

  lemma {:induction false} LastInQueue(rows: Rows, s: set<Id>) returns (m: Id)
    requires s <= rows.Keys && s != {}
    ensures m in s && forall x :: x in s ==> NotAfter(rows, x, m)
    decreases |s|
  {
    var x :| x in s;
    if s == {x} {
      m := x;
    } else {
      var rest := s - {x};
      assert s == rest + {x};
      var y := LastInQueue(rows, rest);
      m := if NotAfter(rows, x, y) then y else x;
    }
  }

  /** The first `k` are at most `k`. */
  lemma FirstAreFew(rows: Rows, s: set<Id>, k: nat)
    requires s <= rows.Keys
    ensures |FirstOf(rows, s, k)| <= k
  {
    var first := FirstOf(rows, s, k);
    if first != {} {
      var m := LastInQueue(rows, first);
      SubsetSize(first, UpTo(rows, s, m));
    }
  }

  /** And all of them, when there are no more than `k`. */
  lemma FirstAreAll(rows: Rows, s: set<Id>, k: nat)
    requires s <= rows.Keys && |s| <= k
    ensures FirstOf(rows, s, k) == s
  {
    forall x | x in s ensures |UpTo(rows, s, x)| <= k {
      SubsetSize(UpTo(rows, s, x), s);
    }
  }

  /** Nothing is taken over the head of an earlier member. */
  lemma FirstComeFirst(rows: Rows, s: set<Id>, k: nat, early: Id, late: Id)
    requires s <= rows.Keys && early in s && late in FirstOf(rows, s, k) && NotAfter(rows, early, late)
    ensures early in FirstOf(rows, s, k)
  {
    SubsetSize(UpTo(rows, s, early), UpTo(rows, s, late));
  }

  /** A claim takes only due rows, at most `limit` of them and at most
      `perMerchant` of any one merchant, and never a merchant's later event while
      leaving an earlier due one. */
  lemma ClaimIsFair(rows: Rows, now: Instant, limit: nat, perMerchant: nat)
    ensures Chosen(rows, now, limit, perMerchant) <= DueSet(rows, now)
    ensures |Chosen(rows, now, limit, perMerchant)| <= limit
    ensures forall m :: |SameMerchant(rows, Chosen(rows, now, limit, perMerchant), m)| <= perMerchant
    ensures forall early, late :: early in DueSet(rows, now) && late in Chosen(rows, now, limit, perMerchant)
              && rows[early].merchant == rows[late].merchant && NotAfter(rows, early, late)
              ==> early in Chosen(rows, now, limit, perMerchant)
  {
    FirstAreFew(rows, Ranked(rows, now, perMerchant), limit);
    forall m ensures |SameMerchant(rows, Chosen(rows, now, limit, perMerchant), m)| <= perMerchant {
      MerchantBound(rows, now, limit, perMerchant, m);
    }
    forall early, late | early in DueSet(rows, now) && late in Chosen(rows, now, limit, perMerchant)
      && rows[early].merchant == rows[late].merchant && NotAfter(rows, early, late)
      ensures early in Chosen(rows, now, limit, perMerchant)
    {
      FirstComeFirst(rows, SameMerchant(rows, DueSet(rows, now), rows[late].merchant), perMerchant, early, late);
      FirstComeFirst(rows, Ranked(rows, now, perMerchant), limit, early, late);
    }
  }

  /** A row that became available earlier, or at the same instant under a smaller id,
      is never left behind for a later one of its merchant; and only rows that are
      live, available and free or past their window are taken. */
  lemma EarlierFirst(rows: Rows, now: Instant, limit: nat, perMerchant: nat, early: Id, late: Id)
    requires late in Chosen(rows, now, limit, perMerchant)
    ensures var r := rows[late];
            && r.deliveredAt.None? && r.deadAt.None? && r.availableAt <= now && (r.claim.Some? ==> r.claim.value.until < now)
    ensures (early in rows && Due(rows[early], now) && rows[early].merchant == rows[late].merchant
             && (rows[early].availableAt < rows[late].availableAt || (rows[early].availableAt == rows[late].availableAt && early <= late)))
            ==> early in Chosen(rows, now, limit, perMerchant)
  {
    ClaimIsFair(rows, now, limit, perMerchant);
  }

  lemma MerchantBound(rows: Rows, now: Instant, limit: nat, perMerchant: nat, m: Option<Id>)
    ensures |SameMerchant(rows, Chosen(rows, now, limit, perMerchant), m)| <= perMerchant
  {
    var own := SameMerchant(rows, DueSet(rows, now), m);
    FirstAreFew(rows, own, perMerchant);
    SubsetSize(SameMerchant(rows, Chosen(rows, now, limit, perMerchant), m), FirstOf(rows, own, perMerchant));
  }

  /** With room for all, everything due is claimed. */
  lemma ClaimIsComplete(rows: Rows, now: Instant, limit: nat, perMerchant: nat)
    requires |DueSet(rows, now)| <= limit && |DueSet(rows, now)| <= perMerchant
    ensures Chosen(rows, now, limit, perMerchant) == DueSet(rows, now)
  {
    var due := DueSet(rows, now);
    forall x | x in due ensures x in Ranked(rows, now, perMerchant) {
      var own := SameMerchant(rows, due, rows[x].merchant);
      SubsetSize(own, due);
      FirstAreAll(rows, own, perMerchant);
    }
    assert Ranked(rows, now, perMerchant) == due;
    FirstAreAll(rows, due, limit);
  }

  // ----- the statements -----

  function ClaimRows(rows: Rows, taken: set<Id>, claim: Claim): (r: Rows)
    ensures r.Keys == rows.Keys
  {
    map id | id in rows :: if id in taken then rows[id].(claim := Some(claim)) else rows[id]
  }

  datatype Completion = Deliver(at: Instant) | Retry(availableAt: Instant, error: string) | Bury(at: Instant, error: string)

  /** `mark_delivered`, `reschedule` and `dead_letter`: one more attempt, the claim
      released, and nothing at all on a row that is already done. */
  function Complete(r: Row, c: Completion): Row {
    if !Live(r) then r
    else
      var released := r.(attempts := r.attempts + 1, claim := None);
      match c
      case Deliver(at) => released.(deliveredAt := Some(at), lastError := None)
      case Retry(availableAt, error) => released.(availableAt := availableAt, lastError := Some(error))
      case Bury(at, error) => released.(deadAt := Some(at), lastError := Some(error))
  }

  function CompleteRow(rows: Rows, id: Id, c: Completion): (r: Rows)
    ensures r.Keys == rows.Keys
  {
    if id in rows then rows[id := Complete(rows[id], c)] else rows
  }
}
