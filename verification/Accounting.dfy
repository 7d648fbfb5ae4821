/** The settlement export's totals and control sum
    (crates/gateway-application/src/accounting.rs). */
module Accounting {
  import opened Common
  import opened Money

  const U64_LIMIT: nat := 0x1_0000_0000_0000_0000
  const I128_LIMIT: int := 0x8000_0000_0000_0000_0000_0000_0000_0000

  datatype Figures = Figures(payments: nat, partials: nat, overpaid: nat, allocatedRaw: nat, fiatMinor: int, remainder: nat)

  const ZERO: Figures := Figures(0, 0, 0, 0, 0, 0)

  /** Every figure is within its machine integer. */
  predicate Fit(f: Figures) {
    && f.payments < U64_LIMIT && f.partials < U64_LIMIT && f.overpaid < U64_LIMIT
    && f.allocatedRaw < U256_LIMIT && f.remainder < U256_LIMIT && -I128_LIMIT <= f.fiatMinor < I128_LIMIT
  }

  function Plus(a: Figures, b: Figures): Figures {
    Figures(a.payments + b.payments, a.partials + b.partials, a.overpaid + b.overpaid,
            a.allocatedRaw + b.allocatedRaw, a.fiatMinor + b.fiatMinor, a.remainder + b.remainder)
  }

  datatype Key = Key(asset: Id, currency: string)

  datatype Day = Day(day: string, merchant: Id, merchantName: string, key: Key, figures: Figures)

  datatype Total = Total(key: Key, figures: Figures)

  datatype Control = Control(asset: Id, rows: nat, allocatedRaw: nat)

  /** The plain sum of a key's days, field by field and without bounds. */
  function SumFor(days: seq<Day>, key: Key): Figures {
    if days == [] then ZERO
    else
      var last := days[|days| - 1];
      var before := SumFor(days[..|days| - 1], key);
      if last.key == key then Plus(before, last.figures) else before
  }

  /** One figure summed over the days of a key. */
  function SumOf(days: seq<Day>, key: Key, f: Figures -> int): int {
    if days == [] then 0
    else
      var last := days[|days| - 1];
      SumOf(days[..|days| - 1], key, f) + if last.key == key then f(last.figures) else 0
  }

  /** The six figures are summed each on its own. */
  lemma {:induction false} SumsAreFieldwise(days: seq<Day>, key: Key)
    ensures var sum := SumFor(days, key);
            && sum.payments == SumOf(days, key, (f: Figures) => f.payments) && sum.partials == SumOf(days, key, (f: Figures) => f.partials)
            && sum.overpaid == SumOf(days, key, (f: Figures) => f.overpaid)
            && sum.allocatedRaw == SumOf(days, key, (f: Figures) => f.allocatedRaw)
            && sum.fiatMinor == SumOf(days, key, (f: Figures) => f.fiatMinor)
            && sum.remainder == SumOf(days, key, (f: Figures) => f.remainder)
  {
    if days != [] { SumsAreFieldwise(days[..|days| - 1], key); }
  }

  // ----- totals -----

  function SlotOf(totals: seq<Total>, key: Key): (p: nat)
    ensures p <= |totals| && (p < |totals| ==> totals[p].key == key)
    ensures forall i :: 0 <= i < p ==> totals[i].key != key
  {
    if totals == [] then 0 else if totals[0].key == key then 0 else 1 + SlotOf(totals[1..], key)
  }

  /** One day added to its total, or nothing when a field overflows. */
  function AddDay(totals: seq<Total>, d: Day): Option<seq<Total>> {
    var p := SlotOf(totals, d.key);
    var sum := Plus(if p < |totals| then totals[p].figures else ZERO, d.figures);
    if !Fit(sum) then None
    else if p < |totals| then Some(totals[p := Total(d.key, sum)])
    else Some(totals + [Total(d.key, sum)])
  }

  function Totals(days: seq<Day>): Option<seq<Total>> {
    if days == [] then Some([])
    else
      var before := Totals(days[..|days| - 1]);
      if before.None? then None else AddDay(before.value, days[|days| - 1])
  }

  predicate DistinctKeys(totals: seq<Total>) {
    forall i, j :: 0 <= i < j < |totals| ==> totals[i].key != totals[j].key
  }

  predicate Paid(days: seq<Day>, key: Key) {
    exists i :: 0 <= i < |days| && days[i].key == key
  }

  predicate Listed(totals: seq<Total>, key: Key) {
    exists i :: 0 <= i < |totals| && totals[i].key == key
  }

  /** Exactly one row per asset and currency that occurs, each the sum of its days. */
  ghost predicate Exact(totals: seq<Total>, days: seq<Day>) {
    && DistinctKeys(totals)
    && (forall key :: Listed(totals, key) <==> Paid(days, key))
    && (forall i :: 0 <= i < |totals| ==> totals[i].figures == SumFor(days, totals[i].key))
  }

  lemma PaidGrows(days: seq<Day>, d: Day, key: Key)
    ensures Paid(days + [d], key) <==> Paid(days, key) || d.key == key
  {
    assert (days + [d])[|days|] == d;
    if Paid(days, key) {
      var i :| 0 <= i < |days| && days[i].key == key;
      assert (days + [d])[i].key == key;
    }
  }

  lemma ListedAfter(totals: seq<Total>, d: Day, key: Key)
    requires AddDay(totals, d).Some?
    ensures Listed(AddDay(totals, d).value, key) <==> Listed(totals, key) || d.key == key
  {
    var after, p := AddDay(totals, d).value, SlotOf(totals, d.key);
    assert after[p].key == d.key;
    if Listed(totals, key) {
      var i :| 0 <= i < |totals| && totals[i].key == key;
      assert after[i].key == key;
    }
    if Listed(after, key) && key != d.key {
      var i :| 0 <= i < |after| && after[i].key == key;
      assert i != p && totals[i].key == key;
    }
  }

  lemma {:induction false} NothingUnpaid(days: seq<Day>, key: Key)
    requires !Paid(days, key)
    ensures SumFor(days, key) == ZERO
  {
    if days != [] {
      var front, last := days[..|days| - 1], days[|days| - 1];
      assert days == front + [last];
      PaidGrows(front, last, key);
      NothingUnpaid(front, key);
    }
  }

  /** The slot's figures are what has been summed so far. */
  lemma SlotHolds(totals: seq<Total>, days: seq<Day>, key: Key)
    requires Exact(totals, days)
    ensures var p := SlotOf(totals, key);
            SumFor(days, key) == if p < |totals| then totals[p].figures else ZERO
  {
    var p := SlotOf(totals, key);
    if p == |totals| {
      assert !Listed(totals, key);
      NothingUnpaid(days, key);
    }
  }

  lemma DayKeepsExact(totals: seq<Total>, days: seq<Day>, d: Day)
    requires Exact(totals, days) && AddDay(totals, d).Some?
    ensures Exact(AddDay(totals, d).value, days + [d])
  {
    var after := AddDay(totals, d).value;
    assert (days + [d])[..|days|] == days;
    forall key ensures Listed(after, key) <==> Paid(days + [d], key) {
      ListedAfter(totals, d, key);
      PaidGrows(days, d, key);
    }
    SlotHolds(totals, days, d.key);
  }

  lemma {:induction false} TotalsExact(days: seq<Day>)
    requires Totals(days).Some?
    ensures Exact(Totals(days).value, days)
  {
    if days != [] {
      var front, last := days[..|days| - 1], days[|days| - 1];
      TotalsExact(front);
      assert days == front + [last];
      DayKeepsExact(Totals(front).value, front, last);
    }
  }

  ghost predicate RunningOver(days: seq<Day>) {
    exists n :: 0 < n <= |days| && TooLarge(SumFor(days[..n], days[n - 1].key))
  }

  /** A count beyond 64 bits, an amount beyond 256 or a fiat sum beyond a signed 128. */
  predicate TooLarge(f: Figures) {
    || f.payments >= 0x1_0000_0000_0000_0000 || f.partials >= 0x1_0000_0000_0000_0000 || f.overpaid >= 0x1_0000_0000_0000_0000
    || f.allocatedRaw >= U256_LIMIT || f.remainder >= U256_LIMIT
    || f.fiatMinor >= 0x8000_0000_0000_0000_0000_0000_0000_0000 || f.fiatMinor < -0x8000_0000_0000_0000_0000_0000_0000_0000
  }

  /** Totals are refused exactly when some running sum leaves its machine integer. */
  lemma {:induction false} TotalsOverflow(days: seq<Day>)
    ensures Totals(days).None? <==> RunningOver(days)
  {
    if days != [] {
      var front, last := days[..|days| - 1], days[|days| - 1];
      TotalsOverflow(front);
      assert days[..|days|] == days;
      forall n | 0 < n <= |front| ensures front[..n] == days[..n] && front[n - 1] == days[n - 1] {}
      if Totals(front).Some? {
        TotalsExact(front);
        SlotHolds(Totals(front).value, front, last.key);
      }
    }
  }

  // ----- order of the rows -----

  /** Text order, character by character. */
  predicate TextLe(a: string, b: string) {
    a == "" || (b != "" && (a[0] < b[0] || (a[0] == b[0] && TextLe(a[1..], b[1..]))))
  }

  /** Dictionary order: a prefix comes first, otherwise the first difference
      decides. */
  lemma {:induction false} TextLeSays(a: string, b: string)
    ensures TextLe(a, b) <==> a <= b || exists k :: 0 <= k < |a| && k < |b| && a[..k] == b[..k] && a[k] < b[k]
  {
    if a != "" && b != "" {
      TextLeSays(a[1..], b[1..]);
      var x, y := a[1..], b[1..];
      if a[0] == b[0] {
        forall k | 0 <= k < |x| && k < |y| && x[..k] == y[..k] && x[k] < y[k]
          ensures 0 <= k + 1 < |a| && k + 1 < |b| && a[..k + 1] == b[..k + 1] && a[k + 1] < b[k + 1]
        {
          assert a[..k + 1] == [a[0]] + x[..k] && b[..k + 1] == [b[0]] + y[..k];
        }
        forall k | 0 < k < |a| && k < |b| && a[..k] == b[..k] && a[k] < b[k]
          ensures x[..k - 1] == y[..k - 1] && x[k - 1] < y[k - 1]
        {
          assert x[..k - 1] == a[..k][1..] && y[..k - 1] == b[..k][1..];
        }
        assert a <= b <==> x <= y by { assert a == [a[0]] + x && b == [b[0]] + y; }
      } else {
        assert a[..0] == b[..0];
        forall k | 0 < k <= |a| && k <= |b| ensures a[..k] != b[..k] { assert a[..k][0] == a[0] && b[..k][0] == b[0]; }
      }
    }
  }

  lemma {:induction false} TextLeTotal(a: string, b: string)
    ensures TextLe(a, b) || TextLe(b, a)
  {
    if a != "" && b != "" { TextLeTotal(a[1..], b[1..]); }
  }

  lemma {:induction false} TextLeTransitive(a: string, b: string, c: string)
    requires TextLe(a, b) && TextLe(b, c)
    ensures TextLe(a, c)
  {
    if a != "" && a[0] == b[0] == c[0] { TextLeTransitive(a[1..], b[1..], c[1..]); }
  }

  predicate KeyLe(a: Key, b: Key) {
    a.asset < b.asset || (a.asset == b.asset && TextLe(a.currency, b.currency))
  }

  function InsertTotal(s: seq<Total>, t: Total): seq<Total> {
    if s == [] then [t]
    else if KeyLe(s[|s| - 1].key, t.key) then s + [t]
    else InsertTotal(s[..|s| - 1], t) + [s[|s| - 1]]
  }

  function SortTotals(s: seq<Total>): seq<Total> {
    if s == [] then [] else InsertTotal(SortTotals(s[..|s| - 1]), s[|s| - 1])
  }

  predicate Ordered(s: seq<Total>) {
    forall i, j :: 0 <= i < j < |s| ==> KeyLe(s[i].key, s[j].key)
  }

  lemma KeyLeTotal(a: Key, b: Key)
    ensures KeyLe(a, b) || KeyLe(b, a)
  {
    TextLeTotal(a.currency, b.currency);
  }

  lemma KeyLeTransitive(a: Key, b: Key, c: Key)
    requires KeyLe(a, b) && KeyLe(b, c)
    ensures KeyLe(a, c)
  {
    if a.asset == b.asset == c.asset { TextLeTransitive(a.currency, b.currency, c.currency); }
  }

  lemma {:induction false} InsertPermutes(s: seq<Total>, t: Total)
    ensures multiset(InsertTotal(s, t)) == multiset(s) + multiset{t}
  {
    if s != [] && !KeyLe(s[|s| - 1].key, t.key) {
      InsertPermutes(s[..|s| - 1], t);
      assert s == s[..|s| - 1] + [s[|s| - 1]];
    }
  }

  lemma {:induction false} InsertOrders(s: seq<Total>, t: Total)
    requires Ordered(s)
    ensures Ordered(InsertTotal(s, t))
  {
    if s != [] {
      var front, last := s[..|s| - 1], s[|s| - 1];
      if KeyLe(last.key, t.key) {
        forall i | 0 <= i < |front| ensures KeyLe(front[i].key, t.key) { KeyLeTransitive(front[i].key, last.key, t.key); }
      } else {
        InsertOrders(front, t);
        InsertPermutes(front, t);
        KeyLeTotal(last.key, t.key);
        var inserted := InsertTotal(front, t);
        forall i | 0 <= i < |inserted| ensures KeyLe(inserted[i].key, last.key) {
          assert inserted[i] in multiset(front) + multiset{t};
          if inserted[i] != t { assert inserted[i] in front; }
        }
      }
    }
  }

  lemma {:induction false} SortPermutes(s: seq<Total>)
    ensures multiset(SortTotals(s)) == multiset(s)
  {
    if s != [] {
      var front, last := s[..|s| - 1], s[|s| - 1];
      SortPermutes(front);
      InsertPermutes(SortTotals(front), last);
      assert s == front + [last];
    }
  }

  lemma {:induction false} SortOrders(s: seq<Total>)
    ensures Ordered(SortTotals(s))
  {
    if s != [] {
      SortOrders(s[..|s| - 1]);
      InsertOrders(SortTotals(s[..|s| - 1]), s[|s| - 1]);
    }
  }

  lemma CountOnce(s: seq<Total>, i: nat, j: nat)
    requires i < j < |s| && s[i] == s[j]
    ensures multiset(s)[s[i]] >= 2
  {
    assert s == s[..i] + [s[i]] + s[i + 1..j] + [s[j]] + s[j + 1..];
  }

  lemma {:induction false} AtMostOnce(s: seq<Total>, t: Total)
    requires DistinctKeys(s)
    ensures multiset(s)[t] <= 1
  {
    if s != [] {
      var front, last := s[..|s| - 1], s[|s| - 1];
      AtMostOnce(front, t);
      assert s == front + [last];
      assert last !in front;
      assert last !in multiset(front);
    }
  }

  lemma MemberByCount(s: seq<Total>, r: seq<Total>, t: Total)
    requires multiset(s) == multiset(r)
    ensures t in s <==> t in r
  {
    assert t in s <==> t in multiset(s);
    assert t in r <==> t in multiset(r);
  }

  /** Sorting keeps the rows exact. */
  lemma SortKeepsExact(s: seq<Total>, days: seq<Day>)
    requires Exact(s, days)
    ensures Exact(SortTotals(s), days)
  {
    var r := SortTotals(s);
    SortPermutes(s);
    forall t ensures t in s <==> t in r { MemberByCount(s, r, t); }
    forall i, j | 0 <= i < j < |r| ensures r[i].key != r[j].key {
      assert r[i] in s && r[j] in s;
      AtMostOnce(s, r[i]);
      if r[i] == r[j] { CountOnce(r, i, j); }
    }
    forall key ensures Listed(r, key) <==> Listed(s, key) { SameListing(s, r, key); }
    forall i | 0 <= i < |r| ensures r[i].figures == SumFor(days, r[i].key) {
      assert r[i] in s;
    }
  }

  lemma SameListing(s: seq<Total>, r: seq<Total>, key: Key)
    requires forall t :: t in s <==> t in r
    ensures Listed(r, key) <==> Listed(s, key)
  {
    if Listed(r, key) {
      var i :| 0 <= i < |r| && r[i].key == key;
      assert r[i] in s;
      var j :| 0 <= j < |s| && s[j] == r[i];
      assert s[j].key == key;
    }
    if Listed(s, key) {
      var i :| 0 <= i < |s| && s[i].key == key;
      assert s[i] in r;
      var j :| 0 <= j < |r| && r[j] == s[i];
      assert r[j].key == key;
    }
  }

  // ----- the control sum -----

  datatype AssetSum = AssetSum(asset: Id, sum: nat)

  /** What the decisions allocated in an asset, over all currencies and days. */
  function AllocatedIn(days: seq<Day>, asset: Id): nat {
    if days == [] then 0
    else
      var last := days[|days| - 1];
      AllocatedIn(days[..|days| - 1], asset) + if last.key.asset == asset then last.figures.allocatedRaw else 0
  }

  function TotalIn(totals: seq<Total>, asset: Id): nat {
    if totals == [] then 0
    else
      var last := totals[|totals| - 1];
      TotalIn(totals[..|totals| - 1], asset) + if last.key.asset == asset then last.figures.allocatedRaw else 0
  }

  function Share(t: Total, asset: Id): nat { if t.key.asset == asset then t.figures.allocatedRaw else 0 }

  lemma {:induction false} TotalInUpdate(totals: seq<Total>, p: nat, t: Total, asset: Id)
    requires p < |totals|
    ensures TotalIn(totals[p := t], asset) == TotalIn(totals, asset) - Share(totals[p], asset) + Share(t, asset)
  {
    var after, front := totals[p := t], totals[..|totals| - 1];
    if p == |totals| - 1 {
      assert after[..|after| - 1] == front;
    } else {
      TotalInUpdate(front, p, t, asset);
      assert after[..|after| - 1] == front[p := t];
    }
  }

  lemma DayAddsShare(totals: seq<Total>, d: Day, asset: Id)
    requires AddDay(totals, d).Some?
    ensures TotalIn(AddDay(totals, d).value, asset)
            == TotalIn(totals, asset) + if d.key.asset == asset then d.figures.allocatedRaw else 0
  {
    var p := SlotOf(totals, d.key);
    var sum := Plus(if p < |totals| then totals[p].figures else ZERO, d.figures);
    if p < |totals| {
      TotalInUpdate(totals, p, Total(d.key, sum), asset);
    }
  }

  /** Totals carry every allocated unit of the days, asset by asset. */
  lemma {:induction false} TotalsConserve(days: seq<Day>, asset: Id)
    requires Totals(days).Some?
    ensures TotalIn(Totals(days).value, asset) == AllocatedIn(days, asset)
  {
    if days != [] {
      TotalsConserve(days[..|days| - 1], asset);
      DayAddsShare(Totals(days[..|days| - 1]).value, days[|days| - 1], asset);
    }
  }

  lemma {:induction false} InsertConserves(s: seq<Total>, t: Total, asset: Id)
    ensures TotalIn(InsertTotal(s, t), asset) == TotalIn(s, asset) + Share(t, asset)
  {
    if s != [] {
      var front, last := s[..|s| - 1], s[|s| - 1];
      if KeyLe(last.key, t.key) {
      } else {
        InsertConserves(front, t, asset);
      }
    }
  }

  lemma {:induction false} SortConserves(s: seq<Total>, asset: Id)
    ensures TotalIn(SortTotals(s), asset) == TotalIn(s, asset)
  {
    if s != [] {
      SortConserves(s[..|s| - 1], asset);
      InsertConserves(SortTotals(s[..|s| - 1]), s[|s| - 1], asset);
    }
  }

  function AssetSlot(sums: seq<AssetSum>, asset: Id): (p: nat)
    ensures p <= |sums| && (p < |sums| ==> sums[p].asset == asset)
    ensures forall i :: 0 <= i < p ==> sums[i].asset != asset
  {
    if sums == [] then 0 else if sums[0].asset == asset then 0 else 1 + AssetSlot(sums[1..], asset)
  }

  function AddTotal(sums: seq<AssetSum>, t: Total): Option<seq<AssetSum>> {
    var p := AssetSlot(sums, t.key.asset);
    if p < |sums| then
      var sum := sums[p].sum + t.figures.allocatedRaw;
      if sum < U256_LIMIT then Some(sums[p := AssetSum(t.key.asset, sum)]) else None
    else Some(sums + [AssetSum(t.key.asset, t.figures.allocatedRaw)])
  }

  function PerAsset(totals: seq<Total>): Option<seq<AssetSum>> {
    if totals == [] then Some([])
    else
      var before := PerAsset(totals[..|totals| - 1]);
      if before.None? then None else AddTotal(before.value, totals[|totals| - 1])
  }

  predicate HasAsset(sums: seq<AssetSum>, asset: Id) {
    exists i :: 0 <= i < |sums| && sums[i].asset == asset
  }

  predicate InTotals(totals: seq<Total>, asset: Id) {
    exists i :: 0 <= i < |totals| && totals[i].key.asset == asset
  }

  /** One sum per asset that occurs, the whole of what was allocated in it. */
  ghost predicate ExactSums(sums: seq<AssetSum>, totals: seq<Total>) {
    && (forall i, j :: 0 <= i < j < |sums| ==> sums[i].asset != sums[j].asset)
    && (forall asset :: HasAsset(sums, asset) <==> InTotals(totals, asset))
    && (forall i :: 0 <= i < |sums| ==> sums[i].sum == TotalIn(totals, sums[i].asset))
  }

  lemma {:induction false} NothingIn(totals: seq<Total>, asset: Id)
    requires !InTotals(totals, asset)
    ensures TotalIn(totals, asset) == 0
  {
    if totals != [] {
      assert forall i :: 0 <= i < |totals| - 1 ==> totals[..|totals| - 1][i] == totals[i];
      assert totals[|totals| - 1].key.asset != asset;
      NothingIn(totals[..|totals| - 1], asset);
    }
  }

  lemma InTotalsGrows(totals: seq<Total>, t: Total, asset: Id)
    ensures InTotals(totals + [t], asset) <==> InTotals(totals, asset) || t.key.asset == asset
  {
    assert (totals + [t])[|totals|] == t;
    if InTotals(totals, asset) {
      var i :| 0 <= i < |totals| && totals[i].key.asset == asset;
      assert (totals + [t])[i].key.asset == asset;
    }
  }

  lemma HasAssetAfter(sums: seq<AssetSum>, t: Total, asset: Id)
    requires AddTotal(sums, t).Some?
    ensures HasAsset(AddTotal(sums, t).value, asset) <==> HasAsset(sums, asset) || t.key.asset == asset
  {
    var after, p := AddTotal(sums, t).value, AssetSlot(sums, t.key.asset);
    assert after[p].asset == t.key.asset;
    if HasAsset(sums, asset) {
      var i :| 0 <= i < |sums| && sums[i].asset == asset;
      assert after[i].asset == asset;
    }
    if HasAsset(after, asset) && asset != t.key.asset {
      var i :| 0 <= i < |after| && after[i].asset == asset;
      assert i != p && sums[i].asset == asset;
    }
  }

  lemma TotalKeepsSums(sums: seq<AssetSum>, totals: seq<Total>, t: Total)
    requires ExactSums(sums, totals) && AddTotal(sums, t).Some?
    ensures ExactSums(AddTotal(sums, t).value, totals + [t])
  {
    var after, p := AddTotal(sums, t).value, AssetSlot(sums, t.key.asset);
    forall asset ensures HasAsset(after, asset) <==> InTotals(totals + [t], asset) {
      HasAssetAfter(sums, t, asset);
      InTotalsGrows(totals, t, asset);
    }
    forall i | 0 <= i < |after| ensures after[i].sum == TotalIn(totals + [t], after[i].asset) {
      if i == |sums| {
        assert !HasAsset(sums, t.key.asset);
        NothingIn(totals, t.key.asset);
      }
    }
  }

  lemma {:induction false} PerAssetExact(totals: seq<Total>)
    requires PerAsset(totals).Some?
    ensures ExactSums(PerAsset(totals).value, totals)
  {
    if totals != [] {
      var front, last := totals[..|totals| - 1], totals[|totals| - 1];
      PerAssetExact(front);
      assert totals == front + [last];
      TotalKeepsSums(PerAsset(front).value, front, last);
    }
  }

  lemma SlotSum(totals: seq<Total>, asset: Id)
    requires PerAsset(totals).Some?
    ensures var sums, p := PerAsset(totals).value, AssetSlot(PerAsset(totals).value, asset);
            TotalIn(totals, asset) == if p < |sums| then sums[p].sum else 0
  {
    var sums := PerAsset(totals).value;
    PerAssetExact(totals);
    if AssetSlot(sums, asset) == |sums| {
      assert !HasAsset(sums, asset);
      NothingIn(totals, asset);
    }
  }

  ghost predicate TotalOver(totals: seq<Total>) { exists asset :: TotalIn(totals, asset) >= U256_LIMIT }

  /** The control side is refused exactly when some asset's sum leaves 256 bits. */
  lemma {:induction false} PerAssetOverflow(totals: seq<Total>)
    requires forall i :: 0 <= i < |totals| ==> totals[i].figures.allocatedRaw < U256_LIMIT
    ensures PerAsset(totals).None? <==> TotalOver(totals)
  {
    if totals != [] {
      var front, t := totals[..|totals| - 1], totals[|totals| - 1];
      PerAssetOverflow(front);
      forall asset ensures TotalIn(totals, asset) == TotalIn(front, asset) + Share(t, asset) {}
      if PerAsset(front).None? {
        var asset :| TotalIn(front, asset) >= U256_LIMIT;
        assert TotalIn(totals, asset) >= U256_LIMIT;
      } else {
        SlotSum(front, t.key.asset);
        assert PerAsset(totals).None? <==> TotalIn(totals, t.key.asset) >= U256_LIMIT;
        forall asset | asset != t.key.asset ensures TotalIn(totals, asset) < U256_LIMIT {
          assert TotalIn(front, asset) < U256_LIMIT;
        }
      }
    }
  }

  // ----- balanced -----

  predicate Matches(s: AssetSum, controls: seq<Control>) {
    exists i :: 0 <= i < |controls| && controls[i].asset == s.asset && controls[i].allocatedRaw == s.sum
  }

  predicate Balanced(sums: seq<AssetSum>, controls: seq<Control>) {
    |sums| == |controls| && forall i :: 0 <= i < |sums| ==> Matches(sums[i], controls)
  }

  predicate DistinctControls(controls: seq<Control>) {
    forall i, j :: 0 <= i < j < |controls| ==> controls[i].asset != controls[j].asset
  }

  function SumAssets(sums: seq<AssetSum>): (r: seq<Id>)
    ensures |r| == |sums| && forall i :: 0 <= i < |sums| ==> r[i] == sums[i].asset
  {
    seq(|sums|, i requires 0 <= i < |sums| => sums[i].asset)
  }

  function ControlAssets(controls: seq<Control>): (r: seq<Id>)
    ensures |r| == |controls| && forall i :: 0 <= i < |controls| ==> r[i] == controls[i].asset
  {
    seq(|controls|, i requires 0 <= i < |controls| => controls[i].asset)
  }

  /** As many distinct things as a list is long, all of them in the list: the list
      has no repetition and nothing else. */
  lemma NoRoomForMore(a: seq<Id>, b: seq<Id>)
    requires |a| == |b| && (forall i, j :: 0 <= i < j < |a| ==> a[i] != a[j]) && forall i :: 0 <= i < |a| ==> a[i] in b
    ensures (forall i, j :: 0 <= i < j < |b| ==> b[i] != b[j]) && forall i :: 0 <= i < |b| ==> b[i] in a
  {
    CountDistinct(a);
    CountAtMost(b);
    assert Members(a) <= Members(b);
    SubsetSize(Members(a), Members(b));
    forall i | 0 <= i < |b| ensures b[i] in a { assert b[i] in Members(b); }
  }

  predicate PaidIn(days: seq<Day>, asset: Id) {
    exists i :: 0 <= i < |days| && days[i].key.asset == asset
  }

  predicate Controlled(controls: seq<Control>, asset: Id) {
    exists i :: 0 <= i < |controls| && controls[i].asset == asset
  }

  /** The two sides name the same assets with the same sums, each once. */
  ghost predicate SameLedger(days: seq<Day>, controls: seq<Control>) {
    && DistinctControls(controls)
    && (forall i :: 0 <= i < |controls| ==> controls[i].allocatedRaw == AllocatedIn(days, controls[i].asset))
    && (forall asset :: PaidIn(days, asset) <==> Controlled(controls, asset))
  }

  /** What the per-asset sums are in terms of the days. */
  ghost predicate SumsOf(sums: seq<AssetSum>, days: seq<Day>) {
    && (forall i, j :: 0 <= i < j < |sums| ==> sums[i].asset != sums[j].asset)
    && (forall i :: 0 <= i < |sums| ==> sums[i].sum == AllocatedIn(days, sums[i].asset))
    && (forall asset :: HasAsset(sums, asset) <==> PaidIn(days, asset))
  }

  lemma AssetsListed(totals: seq<Total>, days: seq<Day>, asset: Id)
    requires Exact(totals, days)
    ensures InTotals(totals, asset) <==> PaidIn(days, asset)
  {
    if InTotals(totals, asset) {
      var i :| 0 <= i < |totals| && totals[i].key.asset == asset;
      assert Listed(totals, totals[i].key) && Paid(days, totals[i].key);
      var j :| 0 <= j < |days| && days[j].key == totals[i].key;
      assert days[j].key.asset == asset;
    }
    if PaidIn(days, asset) {
      var j :| 0 <= j < |days| && days[j].key.asset == asset;
      assert Paid(days, days[j].key) && Listed(totals, days[j].key);
      var i :| 0 <= i < |totals| && totals[i].key == days[j].key;
      assert totals[i].key.asset == asset;
    }
  }

  lemma SumsFromDays(days: seq<Day>)
    requires Totals(days).Some? && PerAsset(SortTotals(Totals(days).value)).Some?
    ensures SumsOf(PerAsset(SortTotals(Totals(days).value)).value, days)
  {
    var totals := SortTotals(Totals(days).value);
    var sums := PerAsset(totals).value;
    TotalsExact(days);
    SortKeepsExact(Totals(days).value, days);
    PerAssetExact(totals);
    forall i | 0 <= i < |sums| ensures sums[i].sum == AllocatedIn(days, sums[i].asset) {
      SortConserves(Totals(days).value, sums[i].asset);
      TotalsConserve(days, sums[i].asset);
    }
    forall asset ensures HasAsset(sums, asset) <==> PaidIn(days, asset) { AssetsListed(totals, days, asset); }
  }

  lemma BalancedImpliesSame(days: seq<Day>, sums: seq<AssetSum>, controls: seq<Control>)
    requires SumsOf(sums, days) && Balanced(sums, controls)
    ensures SameLedger(days, controls)
  {
    var a, b := SumAssets(sums), ControlAssets(controls);
    forall i | 0 <= i < |a| ensures a[i] in b {}
    NoRoomForMore(a, b);
    assert DistinctControls(controls);
    forall k | 0 <= k < |controls|
      ensures controls[k].allocatedRaw == AllocatedIn(days, controls[k].asset) && HasAsset(sums, controls[k].asset)
    {
      assert b[k] in a;
      var i :| 0 <= i < |a| && a[i] == b[k];
      assert Matches(sums[i], controls);
      var l :| 0 <= l < |controls| && controls[l].asset == sums[i].asset && controls[l].allocatedRaw == sums[i].sum;
      assert l == k;
    }
    forall asset | HasAsset(sums, asset) ensures Controlled(controls, asset) {
      var i :| 0 <= i < |sums| && sums[i].asset == asset;
      var k :| 0 <= k < |b| && b[k] == asset;
      assert controls[k].asset == asset;
    }
  }

  lemma SameImpliesBalanced(days: seq<Day>, sums: seq<AssetSum>, controls: seq<Control>)
    requires SumsOf(sums, days) && SameLedger(days, controls)
    ensures Balanced(sums, controls)
  {
    var a, b := SumAssets(sums), ControlAssets(controls);
    CountDistinct(a);
    CountDistinct(b);
    forall asset ensures asset in Members(a) <==> asset in Members(b) {
      assert asset in a <==> HasAsset(sums, asset);
      assert asset in b <==> Controlled(controls, asset);
    }
    assert Members(a) == Members(b);
    forall i | 0 <= i < |sums| ensures Matches(sums[i], controls) {
      assert HasAsset(sums, sums[i].asset) && Controlled(controls, sums[i].asset);
      var k :| 0 <= k < |controls| && controls[k].asset == sums[i].asset;
      assert controls[k].allocatedRaw == sums[i].sum;
    }
  }

  datatype Export = Export(totals: seq<Total>, balanced: bool)

  /** `build_export`; nothing when a sum overflows. */
  function BuildExport(days: seq<Day>, controls: seq<Control>): Option<Export> {
    var totals := Totals(days);
    if totals.None? then None
    else
      var sorted := SortTotals(totals.value);
      var sums := PerAsset(sorted);
      if sums.None? then None else Some(Export(sorted, Balanced(sums.value, controls)))
  }

  ghost predicate AssetOver(days: seq<Day>) { exists asset :: AllocatedIn(days, asset) >= U256_LIMIT }

  lemma SortedOver(days: seq<Day>)
    requires Totals(days).Some?
    ensures TotalOver(SortTotals(Totals(days).value)) <==> AssetOver(days)
  {
    var totals := SortTotals(Totals(days).value);
    forall asset ensures TotalIn(totals, asset) == AllocatedIn(days, asset) {
      SortConserves(Totals(days).value, asset);
      TotalsConserve(days, asset);
    }
  }

  lemma SortedFit(days: seq<Day>)
    requires Totals(days).Some?
    ensures var totals := SortTotals(Totals(days).value); forall i :: 0 <= i < |totals| ==> Fit(totals[i].figures)
  {
    var totals := SortTotals(Totals(days).value);
    TotalsFit(days);
    SortPermutes(Totals(days).value);
    forall i | 0 <= i < |totals| ensures Fit(totals[i].figures) { MemberByCount(Totals(days).value, totals, totals[i]); }
  }

  /** An export is refused exactly when a running sum, or an asset's whole sum,
      cannot be represented. */
  lemma ExportRefused(days: seq<Day>, controls: seq<Control>)
    ensures BuildExport(days, controls).None? <==> RunningOver(days) || AssetOver(days)
  {
    TotalsOverflow(days);
    if Totals(days).Some? {
      SortedFit(days);
      SortedOver(days);
      PerAssetOverflow(SortTotals(Totals(days).value));
    }
  }

  lemma {:induction false} TotalsFit(days: seq<Day>)
    requires Totals(days).Some?
    ensures forall t :: t in Totals(days).value ==> Fit(t.figures)
  {
    if days != [] {
      TotalsFit(days[..|days| - 1]);
    }
  }

  /** Sorted rows, one per asset and currency, each the exact sum of its days. */
  lemma ExportTotals(days: seq<Day>, controls: seq<Control>)
    requires BuildExport(days, controls).Some?
    ensures Exact(BuildExport(days, controls).value.totals, days)
    ensures var totals := BuildExport(days, controls).value.totals;
            forall i, j :: 0 <= i < j < |totals| ==>
              || totals[i].key.asset < totals[j].key.asset
              || (totals[i].key.asset == totals[j].key.asset && TextLe(totals[i].key.currency, totals[j].key.currency))
  {
    TotalsExact(days);
    SortKeepsExact(Totals(days).value, days);
    SortOrders(Totals(days).value);
  }

  /** `balanced` is true if and only if decisions and allocation rows name the
      same assets with the same sums, no asset twice. */
  lemma ExportBalances(days: seq<Day>, controls: seq<Control>)
    requires BuildExport(days, controls).Some?
    ensures BuildExport(days, controls).value.balanced <==> SameLedger(days, controls)
  {
    var sums := PerAsset(SortTotals(Totals(days).value)).value;
    SumsFromDays(days);
    if Balanced(sums, controls) { BalancedImpliesSame(days, sums, controls); }
    if SameLedger(days, controls) { SameImpliesBalanced(days, sums, controls); }
  }

  // ----- the loops -----

  method AddUp(days: seq<Day>) returns (totals: Option<seq<Total>>)
    ensures totals == Totals(days)
  {
    var rows: seq<Total> := [];
    for n := 0 to |days|
      invariant Some(rows) == Totals(days[..n])
    {
      assert days[..n + 1][..n] == days[..n];
      var d := days[n];
      var index := SlotOf(rows, d.key);
      ghost var before := rows;
      if index == |rows| {
        rows := rows + [Total(d.key, ZERO)];
      }
      var sum := Plus(rows[index].figures, d.figures);
      if !Fit(sum) {
        StaysRefused(days, n + 1);
        return None;
      }
      rows := rows[index := Total(d.key, sum)];
      assert index == |before| ==> rows == before + [Total(d.key, sum)];
    }
    assert days[..|days|] == days;
    return Some(rows);
  }

  lemma {:induction false} StaysRefused(days: seq<Day>, n: nat)
    requires n <= |days| && Totals(days[..n]).None?
    ensures Totals(days).None?
    decreases |days| - n
  {
    if n < |days| {
      assert days[..n + 1][..n] == days[..n];
      StaysRefused(days, n + 1);
    } else {
      assert days[..n] == days;
    }
  }

  method SumPerAsset(totals: seq<Total>) returns (sums: Option<seq<AssetSum>>)
    ensures sums == PerAsset(totals)
  {
    var rows: seq<AssetSum> := [];
    for n := 0 to |totals|
      invariant Some(rows) == PerAsset(totals[..n])
    {
      assert totals[..n + 1][..n] == totals[..n];
      var t := totals[n];
      var index := AssetSlot(rows, t.key.asset);
      if index < |rows| {
        var sum := rows[index].sum + t.figures.allocatedRaw;
        if sum >= U256_LIMIT {
          StaysOver(totals, n + 1);
          return None;
        }
        rows := rows[index := AssetSum(t.key.asset, sum)];
      } else {
        rows := rows + [AssetSum(t.key.asset, t.figures.allocatedRaw)];
      }
    }
    assert totals[..|totals|] == totals;
    return Some(rows);
  }

  lemma {:induction false} StaysOver(totals: seq<Total>, n: nat)
    requires n <= |totals| && PerAsset(totals[..n]).None?
    ensures PerAsset(totals).None?
    decreases |totals| - n
  {
    if n < |totals| {
      assert totals[..n + 1][..n] == totals[..n];
      StaysOver(totals, n + 1);
    } else {
      assert totals[..n] == totals;
    }
  }

  method Build(days: seq<Day>, controls: seq<Control>) returns (e: Option<Export>)
    ensures e == BuildExport(days, controls)
  {
    var totals := AddUp(days);
    if totals.None? {
      return None;
    }
    var sorted := SortTotals(totals.value);
    var sums := SumPerAsset(sorted);
    if sums.None? {
      return None;
    }
    return Some(Export(sorted, Balanced(sums.value, controls)));
  }
}
