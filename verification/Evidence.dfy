/** Readings of one chain event and what a set of them says
    (crates/gateway-domain/src/verification.rs). */
module Evidence {
  import opened Clock
  import opened Common
  import opened Money

  datatype Kind = FastDetect | CursorScan | TargetedLookup
  datatype Status = Success | Failed
  datatype Finality = Seen | Confirmed | Finalized

  datatype Event = Event(chain: string, network: string, environment: string, txHash: string, index: int)

  /** A memo is never empty once built. */
  type Memo = s: string | s != "" witness "m"

  /** One stored observation. Address keys stand for their hexadecimal text. */
  datatype Reading = Reading(
    id: Id, group: string, sourceKind: string, principal: string, declared: string, kind: Kind,
    asset: Option<Id>, collector: Option<Id>, event: Event,
    number: Option<int>, hash: Option<string>, time: Option<Instant>,
    token: string, sender: string, senderText: string, recipient: string, recipientText: string,
    amount: Amount, decimals: int, memo: Option<Memo>, status: Status, finality: Finality,
    head: Option<int>, observedAt: Instant)

  function Strength(f: Finality): nat {
    match f
    case Seen => 0
    case Confirmed => 1
    case Finalized => 2
  }

  // ----- compared fields -----

  datatype Field = AmountRaw | Recipient | TokenKey | ExecutionStatus | MemoField | Asset | BlockHash | BlockNumber

  const FIELDS: seq<Field> := [AmountRaw, Recipient, TokenKey, ExecutionStatus, MemoField, Asset, BlockHash, BlockNumber]

  /** What a reading claims for a field; texts of different kinds never mix. */
  datatype Value = Number(n: int) | Text(t: string) | Outcome(s: Status) | Known(id: Option<Id>)

  /** The readers of `COMPARED_FIELDS`: only the block fields can be absent. */
  function Read(f: Field, r: Reading): Option<Value> {
    match f
    case AmountRaw => Some(Number(r.amount))
    case Recipient => Some(Text(r.recipient))
    case TokenKey => Some(Text(r.token))
    case ExecutionStatus => Some(Outcome(r.status))
    case MemoField => Some(Text(if r.memo.Some? then r.memo.value else ""))
    case Asset => Some(Known(r.asset))
    case BlockHash => if r.hash.Some? then Some(Text(r.hash.value)) else None
    case BlockNumber => if r.number.Some? then Some(Number(r.number.value)) else None
  }

  /** Two readings both report the field, differently. */
  predicate Clash(f: Field, a: Reading, b: Reading) {
    Read(f, a).Some? && Read(f, b).Some? && Read(f, a) != Read(f, b)
  }

  ghost predicate Disagree(s: seq<Reading>, f: Field) {
    exists a, b :: a in s && b in s && Clash(f, a, b)
  }

  ghost predicate Agree(s: seq<Reading>) {
    forall f :: !Disagree(s, f)
  }

  function Items(s: seq<Reading>, f: Field): seq<(Id, Value)> {
    if s == [] then []
    else
      var last := s[|s| - 1];
      Items(s[..|s| - 1], f) + (if Read(f, last).Some? then [(last.id, Read(f, last).value)] else [])
  }

  lemma {:induction false} ItemsMember(s: seq<Reading>, f: Field, item: (Id, Value))
    ensures item in Items(s, f) <==> exists r :: r in s && r.id == item.0 && Read(f, r) == Some(item.1)
  {
    if s != [] {
      var front, last := s[..|s| - 1], s[|s| - 1];
      ItemsMember(front, f, item);
      assert s == front + [last];
    }
  }

  function Values(items: seq<(Id, Value)>): set<Value> {
    set i | 0 <= i < |items| :: items[i].1
  }

  lemma HasValue(s: seq<Reading>, f: Field, v: Value)
    ensures v in Values(Items(s, f)) <==> exists r :: r in s && Read(f, r) == Some(v)
  {
    var items := Items(s, f);
    if v in Values(items) {
      var i :| 0 <= i < |items| && items[i].1 == v;
      ItemsMember(s, f, items[i]);
    }
    if r :| r in s && Read(f, r) == Some(v) {
      ItemsMember(s, f, (r.id, v));
      var i :| 0 <= i < |items| && items[i] == (r.id, v);
      assert items[i].1 == v;
    }
  }

  lemma TwoOf<T>(s: set<T>, a: T, b: T)
    requires a in s && b in s && a != b
    ensures |s| > 1
  {
    var rest := s - {a};
    assert b in rest && |s| == |rest| + 1;
  }

  lemma MoreThanOne<T>(s: set<T>) returns (a: T, b: T)
    requires |s| > 1
    ensures a in s && b in s && a != b
  {
    a :| a in s;
    var rest := s - {a};
    assert |rest| == |s| - 1;
    b :| b in rest;
  }

  /** More than one distinct value is exactly a disagreement. */
  lemma ContestedIsDisagreement(s: seq<Reading>, f: Field)
    ensures |Values(Items(s, f))| > 1 <==> Disagree(s, f)
  {
    if |Values(Items(s, f))| > 1 {
      var v, w := MoreThanOne(Values(Items(s, f)));
      HasValue(s, f, v);
      HasValue(s, f, w);
      var a :| a in s && Read(f, a) == Some(v);
      var b :| b in s && Read(f, b) == Some(w);
      assert Clash(f, a, b);
    }
    if a, b :| a in s && b in s && Clash(f, a, b) {
      HasValue(s, f, Read(f, a).value);
      HasValue(s, f, Read(f, b).value);
      TwoOf(Values(Items(s, f)), Read(f, a).value, Read(f, b).value);
    }
  }

  // ----- the largest of something over readings -----

  function MaxOf(s: seq<Reading>, f: Reading -> int): (m: int)
    requires s != []
    ensures forall r :: r in s ==> f(r) <= m
    ensures exists r :: r in s && f(r) == m
  {
    if |s| == 1 then
      assert s[0] in s;
      f(s[0])
    else
      var front, last := s[..|s| - 1], s[|s| - 1];
      var m := MaxOf(front, f);
      assert s == front + [last];
      Max(m, f(last))
  }

  ghost predicate Covers(t: seq<Reading>, s: seq<Reading>) {
    forall r :: r in s ==> r in t
  }

  lemma MaxGrows(s: seq<Reading>, t: seq<Reading>, f: Reading -> int)
    requires s != [] && t != [] && Covers(t, s)
    ensures MaxOf(s, f) <= MaxOf(t, f)
  {
    var m := MaxOf(s, f);
    var r :| r in s && f(r) == m;
    assert r in t;
  }

  lemma FilterCovers(s: seq<Reading>, t: seq<Reading>, p: Reading -> bool)
    requires Covers(t, s)
    ensures Covers(Filter(t, p), Filter(s, p))
  {
    forall r | r in Filter(s, p) ensures r in Filter(t, p) {
      FilterMember(s, p, r);
      FilterMember(t, p, r);
    }
  }

  // ----- confirmations -----

  const I64_MIN: int := -0x8000_0000_0000_0000

  function SaturatingSub(a: int, b: int): int {
    Max(I64_MIN, Min(I64_MAX, a - b))
  }

  predicate HasHead(r: Reading) { r.head.Some? }

  function Depth(number: int): Reading -> int {
    (r: Reading) => if r.head.Some? then SaturatingSub(r.head.value, number) else 0
  }

  function Confirmations(s: seq<Reading>, number: int): (c: int)
    ensures c >= 0
  {
    var heads := Filter(s, HasHead);
    if heads == [] then 0 else Max(0, MaxOf(heads, Depth(number)))
  }

  lemma ConfirmationsGrow(s: seq<Reading>, t: seq<Reading>, number: int)
    requires Covers(t, s)
    ensures Confirmations(s, number) <= Confirmations(t, number)
  {
    FilterCovers(s, t, HasHead);
    var hs, ht := Filter(s, HasHead), Filter(t, HasHead);
    if hs != [] {
      assert hs[0] in ht;
      MaxGrows(hs, ht, Depth(number));
    }
  }

  /** The deepest head seen, counted from the block and never negative. */
  lemma ConfirmationsAreDepth(s: seq<Reading>, number: int)
    ensures forall r :: r in s && r.head.Some? ==> SaturatingSub(r.head.value, number) <= Confirmations(s, number)
    ensures Confirmations(s, number) > 0 ==>
            exists r :: r in s && r.head.Some? && SaturatingSub(r.head.value, number) == Confirmations(s, number)
  {
    var heads := Filter(s, HasHead);
    forall r | r in s && r.head.Some? ensures SaturatingSub(r.head.value, number) <= Confirmations(s, number) {
      FilterMember(s, HasHead, r);
      assert Depth(number)(r) <= MaxOf(heads, Depth(number));
    }
    if Confirmations(s, number) > 0 {
      var r :| r in heads && Depth(number)(r) == MaxOf(heads, Depth(number));
      FilterMember(s, HasHead, r);
    }
  }

  // ----- independent groups -----

  function Groups(s: seq<Reading>): set<string> {
    set i | 0 <= i < |s| :: s[i].group
  }

  function IndependentGroups(s: seq<Reading>): nat {
    Min(|Groups(s)|, U32_MAX)
  }

  lemma GroupsGrow(s: seq<Reading>, t: seq<Reading>)
    requires Covers(t, s)
    ensures Groups(s) <= Groups(t) && |Groups(s)| <= |Groups(t)| && IndependentGroups(s) <= IndependentGroups(t)
  {
    forall g | g in Groups(s) ensures g in Groups(t) {
      var i :| 0 <= i < |s| && s[i].group == g;
      assert s[i] in t;
      var j :| 0 <= j < |t| && t[j] == s[i];
      assert t[j].group == g;
    }
    SubsetSize(Groups(s), Groups(t));
  }
}
