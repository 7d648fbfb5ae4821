/** Tying a verified transfer to one payment attempt, and deciding what may
    happen to the money (crates/gateway-domain/src/settlement.rs). */
module Settlement {
  import opened Common
  import opened Money

  datatype AttemptStatus = AwaitingPayment | Expired | Cancelled | Settled

  datatype TransferState = Observed | Canonical | Confirmed | Finalized | Invalidated

  datatype Candidate = Candidate(
    attemptId: Id, intentId: Id, merchantId: Id, collector: Id, expected: U256,
    memo: Option<string>, leasedFrom: Instant, leasedUntil: Instant,
    quoteExpiresAt: Instant, status: AttemptStatus)

  datatype Transfer = Transfer(
    transferId: Id, collector: Id, amount: U256, memo: Option<string>,
    blockTime: Instant, state: TransferState)

  datatype Strategy = ByMemo | ExactAmount | HistoricalSlot | Manual

  datatype MatchOutcome =
    | Matched(attemptId: Id, intentId: Id, strategy: Strategy, late: bool)
    | Ambiguous(attemptIds: seq<Id>)
    | Unmatched

  // ----- matching -----

  predicate MemoHit(t: Transfer, c: Candidate) {
    c.collector == t.collector && t.memo.Some? && c.memo == t.memo
  }

  /** The candidate held this exact amount's slot when the block was produced. */
  predicate Covers(t: Transfer, c: Candidate) {
    c.collector == t.collector && c.expected == t.amount && c.leasedFrom <= t.blockTime < c.leasedUntil
  }

  predicate Live(t: Transfer, c: Candidate) {
    Covers(t, c) && c.status == AwaitingPayment
  }

  function MatchedTo(c: Candidate, strategy: Strategy, t: Transfer): MatchOutcome {
    Matched(c.attemptId, c.intentId, strategy,
            !(c.status.AwaitingPayment? || c.status.Expired?) || t.blockTime >= c.quoteExpiresAt)
  }

  function AttemptIds(cs: seq<Candidate>): seq<Id> {
    seq(|cs|, i requires 0 <= i < |cs| => cs[i].attemptId)
  }

  function AmbiguousAmong(cs: seq<Candidate>): MatchOutcome {
    Ambiguous(SortIds(AttemptIds(cs)))
  }

  /** `match_transfer`: an explicit reference beats an amount, a live
      reservation beats a historical one, anything ambiguous stops. */
  function MatchTransfer(t: Transfer, candidates: seq<Candidate>): MatchOutcome {
    var onAddress := Filter(candidates, (c: Candidate) => c.collector == t.collector);
    var byMemo := if t.memo.Some? then Filter(onAddress, (c: Candidate) => c.memo == t.memo) else [];
    if |byMemo| == 1 then MatchedTo(byMemo[0], ByMemo, t)
    else if |byMemo| > 1 then AmbiguousAmong(byMemo)
    else
      var live := Filter(onAddress, (c: Candidate) =>
        && c.expected == t.amount && c.status == AwaitingPayment
        && t.blockTime >= c.leasedFrom && t.blockTime < c.leasedUntil);
      if |live| == 1 then MatchedTo(live[0], ExactAmount, t)
      else if |live| > 1 then AmbiguousAmong(live)
      else
        var historical := Filter(onAddress, (c: Candidate) =>
          c.expected == t.amount && t.blockTime >= c.leasedFrom && t.blockTime < c.leasedUntil);
        if |historical| == 1 then MatchedTo(historical[0], HistoricalSlot, t)
        else if |historical| > 1 then AmbiguousAmong(historical)
        else Unmatched
  }

  lemma {:induction false} FilterTwice<T(!new)>(s: seq<T>, p: T -> bool, q: T -> bool, r: T -> bool)
    requires forall x :: r(x) <==> p(x) && q(x)
    ensures Filter(Filter(s, p), q) == Filter(s, r)
  {
    if s != [] {
      FilterTwice(s[1..], p, q, r);
      FilterConcat(if p(s[0]) then [s[0]] else [], Filter(s[1..], p), q);
    }
  }

  function MemoHits(t: Transfer, cs: seq<Candidate>): seq<Candidate> { Filter(cs, c => MemoHit(t, c)) }
  function Lives(t: Transfer, cs: seq<Candidate>): seq<Candidate> { Filter(cs, c => Live(t, c)) }
  function Coverings(t: Transfer, cs: seq<Candidate>): seq<Candidate> { Filter(cs, c => Covers(t, c)) }

  /** One rule for every stage: exactly one hit decides, several stop. */
  function Pick(hits: seq<Candidate>, strategy: Strategy, t: Transfer): MatchOutcome
    requires hits != []
  {
    if |hits| == 1 then MatchedTo(hits[0], strategy, t) else AmbiguousAmong(hits)
  }

  /** The first stage with any hit decides: memo, live slot, historical slot. */
  function MatchByStages(t: Transfer, cs: seq<Candidate>): MatchOutcome {
    if MemoHits(t, cs) != [] then Pick(MemoHits(t, cs), ByMemo, t)
    else if Lives(t, cs) != [] then Pick(Lives(t, cs), ExactAmount, t)
    else if Coverings(t, cs) != [] then Pick(Coverings(t, cs), HistoricalSlot, t)
    else Unmatched
  }

  lemma MatchIsStaged(t: Transfer, cs: seq<Candidate>)
    ensures MatchTransfer(t, cs) == MatchByStages(t, cs)
  {
    var onAddress := (c: Candidate) => c.collector == t.collector;
    var memo := (c: Candidate) => c.memo == t.memo;
    if t.memo.Some? {
      FilterTwice(cs, onAddress, memo, c => MemoHit(t, c));
    } else {
      NoHits(cs, c => MemoHit(t, c));
    }
    var live := (c: Candidate) =>
      && c.expected == t.amount && c.status == AwaitingPayment
      && t.blockTime >= c.leasedFrom && t.blockTime < c.leasedUntil;
    FilterTwice(cs, onAddress, live, c => Live(t, c));
    var slot := (c: Candidate) =>
      c.expected == t.amount && t.blockTime >= c.leasedFrom && t.blockTime < c.leasedUntil;
    FilterTwice(cs, onAddress, slot, c => Covers(t, c));
  }

  lemma {:induction false} NoHits<T(!new)>(s: seq<T>, p: T -> bool)
    requires forall i :: 0 <= i < |s| ==> !p(s[i])
    ensures Filter(s, p) == []
  {
    if s != [] { NoHits(s[1..], p); }
  }

  // ----- the list of ids an ambiguity reports is sorted -----

  predicate Ascending(s: seq<Id>) {
    forall i, j :: 0 <= i < j < |s| ==> s[i] <= s[j]
  }

  function InsertId(x: Id, s: seq<Id>): seq<Id> {
    if s == [] || x <= s[0] then [x] + s else [s[0]] + InsertId(x, s[1..])
  }

  function SortIds(s: seq<Id>): seq<Id> {
    if s == [] then [] else InsertId(s[0], SortIds(s[1..]))
  }

  lemma {:induction false} InsertCounts(x: Id, s: seq<Id>)
    ensures multiset(InsertId(x, s)) == multiset(s) + multiset{x}
  {
    if s != [] && x > s[0] {
      InsertCounts(x, s[1..]);
      assert s == [s[0]] + s[1..];
    }
  }

  lemma {:induction false} InsertAscends(x: Id, s: seq<Id>)
    requires Ascending(s)
    ensures var r := InsertId(x, s); r != [] && Ascending(r) && (r[0] == x || (s != [] && r[0] == s[0]))
  {
    if s != [] && x > s[0] {
      InsertAscends(x, s[1..]);
      AscendingCons(s[0], InsertId(x, s[1..]));
    }
  }

  lemma AscendingCons(x: Id, s: seq<Id>)
    requires Ascending(s) && (s == [] || x <= s[0])
    ensures Ascending([x] + s)
  {}

  lemma {:induction false} SortIdsSorts(s: seq<Id>)
    ensures Ascending(SortIds(s)) && multiset(SortIds(s)) == multiset(s)
  {
    if s != [] {
      SortIdsSorts(s[1..]);
      InsertAscends(s[0], SortIds(s[1..]));
      InsertCounts(s[0], SortIds(s[1..]));
      assert s == [s[0]] + s[1..];
    }
  }

  // ----- what an answer says -----

  /** The hits of the first stage that has any: reference, live slot, past slot. */
  function DecidingHits(t: Transfer, cs: seq<Candidate>): seq<Candidate> {
    if MemoHits(t, cs) != [] then MemoHits(t, cs)
    else if Lives(t, cs) != [] then Lives(t, cs)
    else Coverings(t, cs)
  }

  /** The answer in terms of the candidates' own fields. A payment is late when its
      attempt was cancelled or settled, or when its block is not before the end
      of the quote; an expired attempt alone does not make it late. */
  ghost predicate Says(t: Transfer, cs: seq<Candidate>, m: MatchOutcome) {
    var hits := DecidingHits(t, cs);
    match m
    case Matched(attempt, intent, strategy, late) =>
      && |hits| == 1 && hits[0] in cs && attempt == hits[0].attemptId && intent == hits[0].intentId
      && (late <==> hits[0].status.Cancelled? || hits[0].status.Settled? || hits[0].quoteExpiresAt <= t.blockTime)
      && (strategy.ByMemo? <==> exists c :: c in cs && MemoHit(t, c))
      && (strategy.ExactAmount? <==> !(exists c :: c in cs && MemoHit(t, c)) && exists c :: c in cs && Live(t, c))
      && !strategy.Manual?
    case Ambiguous(ids) =>
      && |hits| > 1 && Ascending(ids)
      && multiset(ids) == multiset(seq(|hits|, i requires 0 <= i < |hits| => hits[i].attemptId))
    case Unmatched => forall c :: c in cs ==> !MemoHit(t, c) && !Covers(t, c)
  }

  lemma HitsExist(cs: seq<Candidate>, p: Candidate -> bool)
    ensures Filter(cs, p) != [] <==> exists c :: c in cs && p(c)
  {
    if Filter(cs, p) != [] {
      FilterMember(cs, p, Filter(cs, p)[0]);
    }
    forall c | c in cs && p(c) ensures Filter(cs, p) != [] { FilterMember(cs, p, c); }
  }

  lemma MatchSays(t: Transfer, cs: seq<Candidate>)
    ensures Says(t, cs, MatchTransfer(t, cs))
  {
    MatchIsStaged(t, cs);
    HitsExist(cs, c => MemoHit(t, c));
    HitsExist(cs, c => Live(t, c));
    HitsExist(cs, c => Covers(t, c));
    var hits := DecidingHits(t, cs);
    if |hits| == 1 { DecidingIsListed(t, cs, hits[0]); }
    SortIdsSorts(AttemptIds(hits));
  }

  lemma DecidingIsListed(t: Transfer, cs: seq<Candidate>, c: Candidate)
    requires c in DecidingHits(t, cs)
    ensures c in cs
  {
    FilterMember(cs, d => MemoHit(t, d), c);
    FilterMember(cs, d => Live(t, d), c);
    FilterMember(cs, d => Covers(t, d), c);
  }

  lemma SameFirst(s: seq<Id>, t: seq<Id>)
    requires Ascending(s) && Ascending(t) && multiset(s) == multiset(t) && s != []
    ensures t != [] && s[0] == t[0]
  {
    assert s[0] in multiset(t) && s[0] in t;
    assert t[0] in multiset(s) && t[0] in s;
  }

  lemma WithoutFirst<T>(s: seq<T>)
    requires s != []
    ensures multiset(s[1..]) == multiset(s) - multiset{s[0]}
  {
    assert s == [s[0]] + s[1..];
  }

  lemma {:induction false} AscendingUnique(s: seq<Id>, t: seq<Id>)
    requires Ascending(s) && Ascending(t) && multiset(s) == multiset(t)
    ensures s == t
  {
    if s == [] {
    } else {
      SameFirst(s, t);
      WithoutFirst(s);
      WithoutFirst(t);
      AscendingUnique(s[1..], t[1..]);
      assert s == [s[0]] + s[1..] && t == [t[0]] + t[1..];
    }
  }

  lemma WithoutAt(cs: seq<Candidate>, k: nat)
    requires k < |cs|
    ensures var rest := cs[..k] + cs[k + 1..];
            && multiset(cs) == multiset(rest) + multiset{cs[k]}
            && multiset(AttemptIds(cs)) == multiset(AttemptIds(rest)) + multiset{cs[k].attemptId}
  {
    var front, back := cs[..k], cs[k + 1..];
    assert cs == front + [cs[k]] + back;
    assert AttemptIds(cs) == AttemptIds(front) + [cs[k].attemptId] + AttemptIds(back);
    assert AttemptIds(front + back) == AttemptIds(front) + AttemptIds(back);
  }

  lemma {:induction false} AttemptIdsCount(cs: seq<Candidate>, ds: seq<Candidate>)
    requires multiset(cs) == multiset(ds)
    ensures multiset(AttemptIds(cs)) == multiset(AttemptIds(ds))
  {
    if cs == [] {
    } else {
      assert cs[0] in multiset(ds);
      var k :| 0 <= k < |ds| && ds[k] == cs[0];
      WithoutAt(cs, 0);
      WithoutAt(ds, k);
      var es, fs := cs[..0] + cs[0 + 1..], ds[..k] + ds[k + 1..];
      assert multiset(es) == multiset(cs) - multiset{cs[0]} == multiset(fs);
      AttemptIdsCount(es, fs);
    }
  }

  lemma PickPermutes(hs: seq<Candidate>, gs: seq<Candidate>, strategy: Strategy, t: Transfer)
    requires multiset(hs) == multiset(gs) && hs != [] && gs != []
    ensures Pick(hs, strategy, t) == Pick(gs, strategy, t)
  {
    assert |multiset(hs)| == |hs| && |multiset(gs)| == |gs|;
    if |hs| == 1 {
      assert hs[0] in multiset(gs);
    } else {
      AttemptIdsCount(hs, gs);
      SortIdsSorts(AttemptIds(hs));
      SortIdsSorts(AttemptIds(gs));
      AscendingUnique(SortIds(AttemptIds(hs)), SortIds(AttemptIds(gs)));
    }
  }

  /** The answer does not depend on the order the candidates were listed in. */
  lemma MatchIgnoresOrder(t: Transfer, cs: seq<Candidate>, ds: seq<Candidate>)
    requires multiset(cs) == multiset(ds)
    ensures MatchTransfer(t, cs) == MatchTransfer(t, ds)
  {
    MatchIsStaged(t, cs);
    MatchIsStaged(t, ds);
    FilterPermutes(cs, ds, c => MemoHit(t, c));
    FilterPermutes(cs, ds, c => Live(t, c));
    FilterPermutes(cs, ds, c => Covers(t, c));
    if MemoHits(t, cs) != [] {
      PickPermutes(MemoHits(t, cs), MemoHits(t, ds), ByMemo, t);
    } else if Lives(t, cs) != [] {
      PickPermutes(Lives(t, cs), Lives(t, ds), ExactAmount, t);
    } else if Coverings(t, cs) != [] {
      PickPermutes(Coverings(t, cs), Coverings(t, ds), HistoricalSlot, t);
    }
  }

  /** Attempts that held the slot at another time, and attempts that name
      another reference, never change the answer. */
  lemma MatchIgnoresIrrelevant(t: Transfer, cs: seq<Candidate>)
    ensures MatchTransfer(t, cs) == MatchTransfer(t, Filter(cs, c => MemoHit(t, c) || Covers(t, c)))
  {
    var relevant := c => MemoHit(t, c) || Covers(t, c);
    var kept := Filter(cs, relevant);
    MatchIsStaged(t, cs);
    MatchIsStaged(t, kept);
    FilterTwice(cs, relevant, c => MemoHit(t, c), c => MemoHit(t, c));
    FilterTwice(cs, relevant, c => Live(t, c), c => Live(t, c));
    FilterTwice(cs, relevant, c => Covers(t, c), c => Covers(t, c));
  }

  // ----- the expiry sweep -----

  /** `ds` is `cs` after a sweep expired any of its awaiting attempts. */
  predicate Swept(cs: seq<Candidate>, ds: seq<Candidate>) {
    && |cs| == |ds|
    && forall i :: 0 <= i < |cs| ==>
         ds[i] == cs[i] || (cs[i].status == AwaitingPayment && ds[i] == cs[i].(status := Expired))
  }

  /** What settlement acts on: everything but the name of the strategy. */
  function Choice(o: MatchOutcome): MatchOutcome {
    if o.Matched? then o.(strategy := Manual) else o
  }

  /** The exact condition under which no sweep can change the choice: a memo
      decides, at most one candidate covers the block, or none of those that
      cover it is still awaiting payment. */
  predicate SweepStable(t: Transfer, cs: seq<Candidate>) {
    MemoHits(t, cs) != [] || |Coverings(t, cs)| <= 1 || Lives(t, cs) == []
  }

  function Sweep(c: Candidate): Candidate {
    if c.status == AwaitingPayment then c.(status := Expired) else c
  }

  /** Sweeping changes no stage's hits except the live ones: position by
      position the same candidates hit, up to their status. */
  lemma {:induction false} SweptHits(cs: seq<Candidate>, ds: seq<Candidate>, p: Candidate -> bool)
    requires Swept(cs, ds)
    requires forall i :: 0 <= i < |cs| ==> (p(cs[i]) <==> p(ds[i]))
    ensures Swept(Filter(cs, p), Filter(ds, p))
  {
    if cs != [] { SweptHits(cs[1..], ds[1..], p); }
  }

  lemma {:induction false} SweptLives(t: Transfer, cs: seq<Candidate>, ds: seq<Candidate>)
    requires Swept(cs, ds)
    ensures |Lives(t, ds)| <= |Lives(t, cs)| <= |Coverings(t, cs)|
    ensures |Lives(t, cs)| == |Lives(t, ds)| ==> Lives(t, cs) == Lives(t, ds)
    ensures |Coverings(t, cs)| == 1 && Lives(t, cs) != [] ==> Lives(t, cs) == Coverings(t, cs)
  {
    if cs != [] {
      SweptLives(t, cs[1..], ds[1..]);
      if |Coverings(t, cs)| == 1 && Lives(t, cs) != [] && !Live(t, cs[0]) {
        assert Lives(t, cs) == Lives(t, cs[1..]);
      }
    }
  }

  lemma SweptPick(hs: seq<Candidate>, gs: seq<Candidate>, a: Strategy, b: Strategy, t: Transfer)
    requires hs != [] && Swept(hs, gs)
    ensures Choice(Pick(hs, a, t)) == Choice(Pick(gs, b, t))
  {
    assert AttemptIds(hs) == AttemptIds(gs);
  }

  /** Under `SweepStable` the chosen attempt, its lateness and every reported
      id are the same before and after any sweep. */
  lemma SweepKeepsChoice(t: Transfer, cs: seq<Candidate>, ds: seq<Candidate>)
    requires Swept(cs, ds) && SweepStable(t, cs)
    ensures Choice(MatchTransfer(t, cs)) == Choice(MatchTransfer(t, ds))
  {
    SweptHits(cs, ds, c => MemoHit(t, c));
    if MemoHits(t, cs) != [] {
      MatchIsStaged(t, cs);
      MatchIsStaged(t, ds);
      SweptPick(MemoHits(t, cs), MemoHits(t, ds), ByMemo, ByMemo, t);
    } else {
      SweepKeepsCovering(t, cs, ds);
    }
  }

  /** The same where no memo decides. */
  lemma SweepKeepsCovering(t: Transfer, cs: seq<Candidate>, ds: seq<Candidate>)
    requires Swept(cs, ds) && SweepStable(t, cs) && MemoHits(t, cs) == [] == MemoHits(t, ds)
    ensures Choice(MatchTransfer(t, cs)) == Choice(MatchTransfer(t, ds))
  {
    MatchIsStaged(t, cs);
    MatchIsStaged(t, ds);
    SweptHits(cs, ds, c => Covers(t, c));
    SweptLives(t, cs, ds);
    SweptLives(t, ds, ds);
    if Coverings(t, cs) != [] { SweptPick(Coverings(t, cs), Coverings(t, ds), ExactAmount, ExactAmount, t); }
  }

  /** Expires every awaiting attempt except the one at `keep`. */
  function SweepAllBut(cs: seq<Candidate>, keep: int): (ds: seq<Candidate>)
    ensures Swept(cs, ds)
  {
    seq(|cs|, i requires 0 <= i < |cs| => if i == keep then cs[i] else Sweep(cs[i]))
  }

  lemma {:induction false} LivesAfterSweepAll(t: Transfer, cs: seq<Candidate>, keep: int)
    requires 0 <= keep < |cs| ==> Live(t, cs[keep])
    ensures Lives(t, SweepAllBut(cs, keep)) == if 0 <= keep < |cs| then [cs[keep]] else []
  {
    var ds := SweepAllBut(cs, keep);
    if cs != [] {
      LivesAfterSweepAll(t, cs[1..], keep - 1);
      assert SweepAllBut(cs[1..], keep - 1) == ds[1..];
    }
  }

  /** Outside `SweepStable` some sweep does change the choice. */
  lemma UnstableSweep(t: Transfer, cs: seq<Candidate>) returns (ds: seq<Candidate>)
    requires !SweepStable(t, cs)
    ensures Swept(cs, ds) && Choice(MatchTransfer(t, cs)) != Choice(MatchTransfer(t, ds))
  {
    var keep := -1;
    if |Lives(t, cs)| > 1 {
      FilterMember(cs, c => Live(t, c), Lives(t, cs)[0]);
      keep :| 0 <= keep < |cs| && cs[keep] == Lives(t, cs)[0];
    }
    ds := SweepAllBut(cs, keep);
    MatchIsStaged(t, cs);
    MatchIsStaged(t, ds);
    SweptHits(cs, ds, c => MemoHit(t, c));
    SweptHits(cs, ds, c => Covers(t, c));
    FilterMemberLive(t, cs, keep);
    LivesAfterSweepAll(t, cs, keep);
  }

  lemma FilterMemberLive(t: Transfer, cs: seq<Candidate>, keep: int)
    requires 0 <= keep < |cs| ==> cs[keep] in Lives(t, cs)
    ensures 0 <= keep < |cs| ==> Live(t, cs[keep])
  {
    if 0 <= keep < |cs| { FilterMember(cs, c => Live(t, c), cs[keep]); }
  }

  /** The choice survives every sweep if and only if the slot is stable. */
  lemma SweepIndependence(t: Transfer, cs: seq<Candidate>)
    ensures SweepStable(t, cs) <==>
            forall ds :: Swept(cs, ds) ==> Choice(MatchTransfer(t, cs)) == Choice(MatchTransfer(t, ds))
  {
    if SweepStable(t, cs) {
      forall ds | Swept(cs, ds) ensures Choice(MatchTransfer(t, cs)) == Choice(MatchTransfer(t, ds)) {
        SweepKeepsChoice(t, cs, ds);
      }
    } else {
      var ds := UnstableSweep(t, cs);
    }
  }

  /** Windows of one collector and amount never overlap: what the unique index
      over live leases maintains. */
  predicate DisjointSlots(cs: seq<Candidate>) {
    forall i, j :: 0 <= i < j < |cs| && cs[i].collector == cs[j].collector && cs[i].expected == cs[j].expected ==>
      cs[i].leasedUntil <= cs[j].leasedFrom || cs[j].leasedUntil <= cs[i].leasedFrom
  }

  lemma {:induction false} DisjointCoverings(t: Transfer, cs: seq<Candidate>)
    requires DisjointSlots(cs)
    ensures |Coverings(t, cs)| <= 1
  {
    if cs != [] {
      DisjointCoverings(t, cs[1..]);
      if Covers(t, cs[0]) { NoHits(cs[1..], c => Covers(t, c)); }
    }
  }

  /** Disjoint windows are always sweep-stable. */
  lemma DisjointSlotsAreStable(t: Transfer, cs: seq<Candidate>)
    requires DisjointSlots(cs)
    ensures SweepStable(t, cs)
  {
    DisjointCoverings(t, cs);
  }

  // ----- deciding -----

  datatype Risk = Allow | Review | Deny | Skipped

  datatype Tier = Tier(maxFiatMinor: int, minGroups: nat, requireOwnNode: bool, requireRiskAllow: bool, autoSettle: bool)

  /** `SettlementPolicy::tier_for`: the smallest band that covers the amount,
      the first listed one of equals, and none when no band covers it. */
  function TierFor(tiers: seq<Tier>, fiatMinor: int): (r: Option<Tier>)
    ensures r.None? <==> forall i :: 0 <= i < |tiers| ==> tiers[i].maxFiatMinor < fiatMinor
    ensures r.Some? ==> exists i :: 0 <= i < |tiers| && FirstSmallestCovering(tiers, fiatMinor, i) && tiers[i] == r.value
  {
    if tiers == [] then None
    else
      var rest := TierFor(tiers[1..], fiatMinor);
      if tiers[0].maxFiatMinor >= fiatMinor && (rest.None? || tiers[0].maxFiatMinor <= rest.value.maxFiatMinor) then
        assert FirstSmallestCovering(tiers, fiatMinor, 0) by {
          if rest.Some? {
            var i :| 0 <= i < |tiers[1..]| && FirstSmallestCovering(tiers[1..], fiatMinor, i) && tiers[1..][i] == rest.value;
            assert forall j :: 1 <= j < |tiers| ==> tiers[j] == tiers[1..][j - 1];
          }
        }
        Some(tiers[0])
      else
        assert rest.Some? ==> exists i :: 0 <= i < |tiers| && FirstSmallestCovering(tiers, fiatMinor, i) && tiers[i] == rest.value by {
          if rest.Some? {
            var i :| 0 <= i < |tiers[1..]| && FirstSmallestCovering(tiers[1..], fiatMinor, i) && tiers[1..][i] == rest.value;
            assert forall j :: 1 <= j < |tiers| ==> tiers[j] == tiers[1..][j - 1];
            assert FirstSmallestCovering(tiers, fiatMinor, i + 1);
          }
        }
        rest
  }

  predicate FirstSmallestCovering(tiers: seq<Tier>, fiatMinor: int, i: nat)
    requires i < |tiers|
  {
    && tiers[i].maxFiatMinor >= fiatMinor
    && forall j :: 0 <= j < |tiers| && tiers[j].maxFiatMinor >= fiatMinor ==>
         tiers[i].maxFiatMinor <= tiers[j].maxFiatMinor && (j < i ==> tiers[i].maxFiatMinor < tiers[j].maxFiatMinor)
  }

  datatype Evidence = Evidence(
    fiatMinor: int, expected: U256, already: U256, arriving: U256, state: TransferState,
    groups: nat, hadOwnNode: bool, risk: Risk, status: AttemptStatus, late: bool)

  datatype HoldReason = NotFinal | InvalidatedTransfer | RiskDenied | AlreadyCovered | CancelledAttempt

  datatype ManualReason = AboveAutomaticBand | NotEnoughIndependentGroups | OwnNodeRequired | RiskReview | LatePayment | UncoveredAmount

  datatype Outcome =
    | Settle(allocate: U256)
    | Partial(allocate: U256)
    | Overpaid(allocate: U256, remainder: U256)
    | Hold(holdReason: HoldReason)
    | ManualRequired(manualReason: ManualReason)

  datatype SettlementError = AmountOverflow

  predicate MovesMoney(o: Outcome) { o.Settle? || o.Partial? || o.Overpaid? }

  /** The outcome covers the obligation. */
  predicate Completes(o: Outcome) { o.Settle? || o.Overpaid? }

  function AllocatedBy(o: Outcome): U256 { if MovesMoney(o) then o.allocate else 0 }

  function RemainderOf(o: Outcome): U256 { if o.Overpaid? then o.remainder else 0 }

  /** Every gate in front of the arithmetic. */
  predicate MayMove(e: Evidence, tiers: seq<Tier>) {
    var tier := TierFor(tiers, e.fiatMinor);
    && e.state == Finalized && e.status != Cancelled && e.risk != Deny
    && tier.Some? && tier.value.autoSettle && e.groups >= tier.value.minGroups
    && (tier.value.requireOwnNode ==> e.hadOwnNode)
    && (tier.value.requireRiskAllow ==> e.risk == Allow)
    && !e.late
  }

  /** `decide_settlement`. It never fails; money moves exactly when every gate
      passes and something is still owed; what arrives is split exactly into
      the allocation and the remainder, and the allocation is what was owed or
      all that arrived, whichever is less. */
  function DecideSettlement(e: Evidence, tiers: seq<Tier>): (r: Result<Outcome, SettlementError>)
    ensures r.Ok?
    ensures MovesMoney(r.value) <==> MayMove(e, tiers) && e.already < e.expected
    ensures MovesMoney(r.value) ==> AllocatedBy(r.value) == Min(e.arriving, e.expected - e.already)
    ensures MovesMoney(r.value) ==> AllocatedBy(r.value) + RemainderOf(r.value) == e.arriving
    ensures MovesMoney(r.value) ==> (Completes(r.value) <==> e.already + AllocatedBy(r.value) == e.expected)
    ensures r.value.Overpaid? ==> r.value.remainder > 0
    ensures r.value == Hold(AlreadyCovered) <==> MayMove(e, tiers) && e.already >= e.expected
    ensures r.value == ManualRequired(LatePayment) <==> MayMove(e.(late := false), tiers) && e.late
    ensures e.state != Finalized || e.status == Cancelled || e.risk == Deny <==> r.value.Hold? && r.value != Hold(AlreadyCovered)
  {
    if e.state == Invalidated then Ok(Hold(InvalidatedTransfer))
    else if e.state != Finalized then Ok(Hold(NotFinal))
    else if e.status == Cancelled then Ok(Hold(CancelledAttempt))
    else if e.risk == Deny then Ok(Hold(RiskDenied))
    else
      var tier := TierFor(tiers, e.fiatMinor);
      if tier.None? then Ok(ManualRequired(UncoveredAmount))
      else if !tier.value.autoSettle then Ok(ManualRequired(AboveAutomaticBand))
      else if e.groups < tier.value.minGroups then Ok(ManualRequired(NotEnoughIndependentGroups))
      else if tier.value.requireOwnNode && !e.hadOwnNode then Ok(ManualRequired(OwnNodeRequired))
      else if tier.value.requireRiskAllow && e.risk != Allow then Ok(ManualRequired(RiskReview))
      else if e.late then Ok(ManualRequired(LatePayment))
      else if e.expected < e.already then Ok(Hold(AlreadyCovered))
      else
        var outstanding := e.expected - e.already;
        if outstanding == 0 then Ok(Hold(AlreadyCovered))
        else if e.arriving > outstanding then
          var remainder := e.arriving - outstanding;
          if Positive(outstanding).Err? || Positive(remainder).Err? then Err(AmountOverflow)
          else Ok(Overpaid(outstanding, remainder))
        else if e.arriving == outstanding then Ok(Settle(e.arriving))
        else Ok(Partial(e.arriving))
  }

  /** Why money does not move: the reasons are tried in this order, and each is
      given exactly when none before it applies. */
  lemma DecisionReasons(e: Evidence, tiers: seq<Tier>)
    ensures var o, tier := DecideSettlement(e, tiers).value, TierFor(tiers, e.fiatMinor);
            var open := e.state.Finalized? && !e.status.Cancelled? && !e.risk.Deny?;
            var banded := open && tier.Some? && tier.value.autoSettle;
            var counted := banded && e.groups >= tier.value.minGroups;
            var owned := counted && (tier.value.requireOwnNode ==> e.hadOwnNode);
            var screened := owned && (tier.value.requireRiskAllow ==> e.risk.Allow?);
            && (o == Hold(InvalidatedTransfer) <==> e.state.Invalidated?)
            && (o == Hold(NotFinal) <==> !e.state.Invalidated? && !e.state.Finalized?)
            && (o == Hold(CancelledAttempt) <==> e.state.Finalized? && e.status.Cancelled?)
            && (o == Hold(RiskDenied) <==> e.state.Finalized? && !e.status.Cancelled? && e.risk.Deny?)
            && (o == ManualRequired(UncoveredAmount) <==> open && tier.None?)
            && (o == ManualRequired(AboveAutomaticBand) <==> open && tier.Some? && !tier.value.autoSettle)
            && (o == ManualRequired(NotEnoughIndependentGroups) <==> banded && e.groups < tier.value.minGroups)
            && (o == ManualRequired(OwnNodeRequired) <==> counted && tier.value.requireOwnNode && !e.hadOwnNode)
            && (o == ManualRequired(RiskReview) <==> owned && tier.value.requireRiskAllow && !e.risk.Allow?)
            && (o == ManualRequired(LatePayment) <==> screened && e.late)
            && (o == Hold(AlreadyCovered) <==> screened && !e.late && e.already >= e.expected)
  {}

  /** The match and the decision together, on the attempt snapshot in `e`. */
  function SettleTransfer(t: Transfer, cs: seq<Candidate>, e: Evidence, tiers: seq<Tier>)
    : (MatchOutcome, Option<Outcome>)
  {
    var m := MatchTransfer(t, cs);
    (Choice(m), if m.Matched? then Some(DecideSettlement(e.(late := m.late), tiers).value) else None)
  }

  /** Under disjoint windows the whole settlement answer, down to the amounts,
      is the same whether the sweep ran first or not. */
  lemma SettlementIgnoresSweep(t: Transfer, cs: seq<Candidate>, ds: seq<Candidate>, e: Evidence, f: Evidence, tiers: seq<Tier>)
    requires Swept(cs, ds) && DisjointSlots(cs)
    requires f == e || (e.status == AwaitingPayment && f == e.(status := Expired))
    ensures SettleTransfer(t, cs, e, tiers) == SettleTransfer(t, ds, f, tiers)
  {
    DisjointSlotsAreStable(t, cs);
    SweepKeepsChoice(t, cs, ds);
  }

  // ----- several transfers for one attempt -----

  function Sum(xs: seq<nat>): nat {
    if xs == [] then 0 else xs[0] + Sum(xs[1..])
  }

  /** The attempt's total after deciding each arriving amount in turn. */
  function TotalAfter(e: Evidence, tiers: seq<Tier>, amounts: seq<U256>): nat
    decreases |amounts|
  {
    if amounts == [] then e.already
    else
      var o := DecideSettlement(e.(arriving := amounts[0]), tiers).value;
      if e.already + AllocatedBy(o) >= U256_LIMIT then e.already
      else TotalAfter(e.(already := e.already + AllocatedBy(o)), tiers, amounts[1..])
  }

  /** What one accepted arrival adds. */
  lemma ArrivalAdds(e: Evidence, tiers: seq<Tier>)
    requires MayMove(e, tiers) && e.already <= e.expected
    ensures AllocatedBy(DecideSettlement(e, tiers).value) == Min(e.arriving, e.expected - e.already)
  {}

  /** The gates look at neither the arriving amount nor the total. */
  lemma GatesIgnoreAmounts(e: Evidence, tiers: seq<Tier>, already: U256, arriving: U256)
    ensures MayMove(e.(already := already, arriving := arriving), tiers) <==> MayMove(e, tiers)
  {}

  /** Accepted transfers, in whatever order they are decided, bring the attempt
      to the least of what was expected and what arrived. */
  lemma {:induction false} TotalIsCapped(e: Evidence, tiers: seq<Tier>, amounts: seq<U256>)
    requires MayMove(e, tiers) && e.already <= e.expected
    ensures TotalAfter(e, tiers, amounts) == Min(e.expected, e.already + Sum(amounts))
    decreases |amounts|
  {
    if amounts != [] {
      FirstArrival(e, tiers, amounts);
      TotalIsCapped(e.(already := e.already + Min(amounts[0], e.expected - e.already)), tiers, amounts[1..]);
    }
  }

  /** The first arrival leaves the rest with a larger total. */
  lemma FirstArrival(e: Evidence, tiers: seq<Tier>, amounts: seq<U256>)
    requires MayMove(e, tiers) && e.already <= e.expected && amounts != []
    ensures var next := e.(already := e.already + Min(amounts[0], e.expected - e.already));
            MayMove(next, tiers) && TotalAfter(e, tiers, amounts) == TotalAfter(next, tiers, amounts[1..])
  {
    GatesIgnoreAmounts(e, tiers, e.already, amounts[0]);
    ArrivalAdds(e.(arriving := amounts[0]), tiers);
    GatesIgnoreAmounts(e, tiers, e.already + Min(amounts[0], e.expected - e.already), e.arriving);
  }

  lemma {:induction false} SumPermutes(xs: seq<nat>, ys: seq<nat>)
    requires multiset(xs) == multiset(ys)
    ensures Sum(xs) == Sum(ys)
  {
    if xs == [] {
    } else {
      assert xs[0] in multiset(ys);
      var k :| 0 <= k < |ys| && ys[k] == xs[0];
      WithoutFirst(xs);
      SumWithout(ys, k);
      SumPermutes(xs[1..], ys[..k] + ys[k + 1..]);
    }
  }

  lemma SumWithout(ys: seq<nat>, k: nat)
    requires k < |ys|
    ensures var rest := ys[..k] + ys[k + 1..];
            Sum(ys) == ys[k] + Sum(rest) && multiset(rest) == multiset(ys) - multiset{ys[k]}
  {
    var front, back := ys[..k], ys[k + 1..];
    assert ys == front + [ys[k]] + back;
    SumSplit(front + [ys[k]], back);
    SumSplit(front, [ys[k]]);
    SumSplit(front, back);
  }

  lemma {:induction false} SumSplit(xs: seq<nat>, ys: seq<nat>)
    ensures Sum(xs + ys) == Sum(xs) + Sum(ys)
  {
    if xs == [] {
      assert xs + ys == ys;
    } else {
      SumSplit(xs[1..], ys);
      assert (xs + ys)[1..] == xs[1..] + ys;
    }
  }

  /** Corollary: the order of arrival does not matter. */
  lemma TotalIgnoresOrder(e: Evidence, tiers: seq<Tier>, amounts: seq<U256>, others: seq<U256>)
    requires MayMove(e, tiers) && e.already <= e.expected && multiset(amounts) == multiset(others)
    ensures TotalAfter(e, tiers, amounts) == TotalAfter(e, tiers, others)
  {
    TotalIsCapped(e, tiers, amounts);
    TotalIsCapped(e, tiers, others);
    var xs: seq<nat>, ys: seq<nat> := amounts, others;
    SumPermutes(xs, ys);
  }
}
