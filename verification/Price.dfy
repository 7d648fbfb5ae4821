/** Turning several sources' readings into one usable rate
    (crates/gateway-domain/src/price.rs). Instants are nanoseconds. */
module Price {
  import opened Clock
  import opened Common
  import opened Money
  import opened Ratios

  datatype Reading = Reading(source: string, group: string, num: Amount, den: Amount, observedAt: Instant)

  datatype Policy = Policy(minSources: U32, maxAgeSeconds: int, maxDeviationBps: U32)

  datatype DiscardReason = Stale | FutureDated | SupersededInGroup

  datatype PriceError =
    | PolicyDemandsTooFewSources
    | NoReadings
    | NotEnoughSources(required: nat, available: nat)
    | Diverged(deviationBps: nat, ceiling: nat)
    | Overflow

  datatype Aggregated = Aggregated(
    num: Amount, den: Amount, groupCount: nat, deviationBps: nat, used: seq<nat>, discarded: seq<(nat, DiscardReason)>)

  const BPS_SCALE: nat := 10_000

  predicate IsStale(r: Reading, policy: Policy, now: Instant) {
    var cutoff := CheckedLater(r.observedAt, Min(policy.maxAgeSeconds + 1, I64_MAX));
    cutoff.None? || now >= cutoff.value
  }

  predicate Usable(r: Reading, policy: Policy, now: Instant) {
    r.observedAt <= now && !IsStale(r, policy, now)
  }

  /** Usable means: not from the future, and not a full second older than the policy
      allows; a limit past the end of the calendar lets nothing through. */
  lemma UsableExactly(r: Reading, policy: Policy, now: Instant)
    ensures var limit := r.observedAt + Nanos(Min(policy.maxAgeSeconds + 1, 0x7FFF_FFFF_FFFF_FFFF));
            && (Usable(r, policy, now) <==> r.observedAt <= now < limit && OnCalendar(limit))
            && (IsStale(r, policy, now) <==> limit <= now || !OnCalendar(limit))
  {}

  // ----- ordering rates -----

  function RateOf(r: Reading): Ratio { Ratio(r.num, r.den) }

  datatype Cmp = Less | Equal | Greater

  /** `compare`: an overflowing product orders nothing. */
  function Compare(l: Reading, r: Reading): Cmp {
    var left, right := CheckedMul(l.num, r.den), CheckedMul(r.num, l.den);
    if left.None? || right.None? then Equal
    else if left.value < right.value then Less
    else if left.value > right.value then Greater
    else Equal
  }

  predicate Indices(rs: seq<Reading>, s: seq<nat>) {
    forall i :: 0 <= i < |s| ==> s[i] < |rs|
  }

  /** The library's stable `sort_by`, as its insertion sort does it. */
  function InsertRate(rs: seq<Reading>, s: seq<nat>, x: nat): (r: seq<nat>)
    requires Indices(rs, s) && x < |rs|
    ensures Indices(rs, r) && |r| == |s| + 1
  {
    if s == [] then [x]
    else
      var last := s[|s| - 1];
      if Compare(rs[x], rs[last]).Less? then InsertRate(rs, s[..|s| - 1], x) + [last] else s + [x]
  }

  function SortByRate(rs: seq<Reading>, s: seq<nat>): (r: seq<nat>)
    requires Indices(rs, s)
    ensures Indices(rs, r) && |r| == |s|
  {
    if s == [] then [] else InsertRate(rs, SortByRate(rs, s[..|s| - 1]), s[|s| - 1])
  }

  lemma {:induction false} InsertPermutes(rs: seq<Reading>, s: seq<nat>, x: nat)
    requires Indices(rs, s) && x < |rs|
    ensures multiset(InsertRate(rs, s, x)) == multiset(s) + multiset{x}
  {
    if s != [] {
      var front, last := s[..|s| - 1], s[|s| - 1];
      assert s == front + [last];
      if Compare(rs[x], rs[last]).Less? {
        InsertPermutes(rs, front, x);
        assert InsertRate(rs, s, x) == InsertRate(rs, front, x) + [last];
      } else {
        assert InsertRate(rs, s, x) == s + [x];
      }
    }
  }

  lemma {:induction false} SortPermutes(rs: seq<Reading>, s: seq<nat>)
    requires Indices(rs, s)
    ensures multiset(SortByRate(rs, s)) == multiset(s)
  {
    if s != [] {
      SortPermutes(rs, s[..|s| - 1]);
      InsertPermutes(rs, SortByRate(rs, s[..|s| - 1]), s[|s| - 1]);
      assert s == s[..|s| - 1] + [s[|s| - 1]];
    }
  }

  /** Both cross products of the two readings fit in 256 bits. */
  predicate CrossFits(l: Reading, r: Reading) {
    Product(l.num, r.den) < U256_LIMIT && Product(r.num, l.den) < U256_LIMIT
  }

  predicate SameRate(l: Reading, r: Reading) { Le(RateOf(l), RateOf(r)) && Le(RateOf(r), RateOf(l)) }

  function TrueOrder(l: Reading, r: Reading): Cmp {
    if !Le(RateOf(r), RateOf(l)) then Less else if !Le(RateOf(l), RateOf(r)) then Greater else Equal
  }

  /** The comparison tells the truth if and only if the products fit or there is
      nothing to tell. */
  lemma CompareExactly(l: Reading, r: Reading)
    ensures Compare(l, r) == TrueOrder(l, r) <==> CrossFits(l, r) || SameRate(l, r)
  {
    ProductIs(l.num, r.den);
    ProductIs(r.num, l.den);
  }

  /** Of any two of these readings the cross products fit, or the rates are equal. */
  predicate Comparable(rs: seq<Reading>, s: seq<nat>)
    requires Indices(rs, s)
  {
    forall i, j :: 0 <= i < |s| && 0 <= j < |s| ==> CrossFits(rs[s[i]], rs[s[j]]) || SameRate(rs[s[i]], rs[s[j]])
  }

  predicate Ordered(rs: seq<Reading>, s: seq<nat>)
    requires Indices(rs, s)
  {
    forall i, j :: 0 <= i < j < |s| ==> Le(RateOf(rs[s[i]]), RateOf(rs[s[j]]))
  }

  predicate AllBelow(rs: seq<Reading>, s: seq<nat>, x: nat)
    requires Indices(rs, s) && x < |rs|
  {
    forall i :: 0 <= i < |s| ==> Le(RateOf(rs[s[i]]), RateOf(rs[x]))
  }

  lemma OrderedSnoc(rs: seq<Reading>, s: seq<nat>, x: nat)
    requires Indices(rs, s) && x < |rs| && Ordered(rs, s) && AllBelow(rs, s, x)
    ensures Ordered(rs, s + [x])
  {}

  lemma BelowTransitive(rs: seq<Reading>, s: seq<nat>, x: nat, y: nat)
    requires Indices(rs, s) && x < |rs| && y < |rs| && AllBelow(rs, s, x) && Le(RateOf(rs[x]), RateOf(rs[y]))
    ensures AllBelow(rs, s, y)
  {
    forall i | 0 <= i < |s| ensures Le(RateOf(rs[s[i]]), RateOf(rs[y])) {
      LeTransitive(RateOf(rs[s[i]]), RateOf(rs[x]), RateOf(rs[y]));
    }
  }

  lemma {:induction false} InsertBelow(rs: seq<Reading>, s: seq<nat>, x: nat, y: nat)
    requires Indices(rs, s) && x < |rs| && y < |rs| && AllBelow(rs, s, y) && Le(RateOf(rs[x]), RateOf(rs[y]))
    ensures AllBelow(rs, InsertRate(rs, s, x), y)
  {
    if s != [] && Compare(rs[x], rs[s[|s| - 1]]).Less? { InsertBelow(rs, s[..|s| - 1], x, y); }
  }

  /** Inserting into an ordered list keeps it ordered. */
  lemma {:induction false} InsertOrders(rs: seq<Reading>, s: seq<nat>, x: nat)
    requires Indices(rs, s) && x < |rs| && Ordered(rs, s) && Comparable(rs, s + [x])
    ensures Ordered(rs, InsertRate(rs, s, x))
  {
    if s != [] {
      var front, last := s[..|s| - 1], s[|s| - 1];
      assert s == front + [last];
      ComparesPair(rs, s, x);
      if Compare(rs[x], rs[last]).Less? {
        ComparableFront(rs, s, x);
        InsertOrders(rs, front, x);
        InsertBelow(rs, front, x, last);
        OrderedSnoc(rs, InsertRate(rs, front, x), last);
      } else {
        BelowTransitive(rs, front, last, x);
        OrderedSnoc(rs, s, x);
      }
    }
  }

  lemma ComparesPair(rs: seq<Reading>, s: seq<nat>, x: nat)
    requires Indices(rs, s) && x < |rs| && s != [] && Comparable(rs, s + [x])
    ensures Compare(rs[x], rs[s[|s| - 1]]).Less? ==> Le(RateOf(rs[x]), RateOf(rs[s[|s| - 1]]))
    ensures !Compare(rs[x], rs[s[|s| - 1]]).Less? ==> Le(RateOf(rs[s[|s| - 1]]), RateOf(rs[x]))
  {
    var t := s + [x];
    assert t[|s| - 1] == s[|s| - 1] && t[|s|] == x;
    assert CrossFits(rs[t[|s|]], rs[t[|s| - 1]]) || SameRate(rs[t[|s|]], rs[t[|s| - 1]]);
    CompareExactly(rs[x], rs[s[|s| - 1]]);
  }

  lemma ComparableFront(rs: seq<Reading>, s: seq<nat>, x: nat)
    requires Indices(rs, s) && x < |rs| && s != [] && Comparable(rs, s + [x])
    ensures Comparable(rs, s[..|s| - 1] + [x])
  {
    var t, u := s[..|s| - 1] + [x], s + [x];
    forall i, j | 0 <= i < |t| && 0 <= j < |t| ensures CrossFits(rs[t[i]], rs[t[j]]) || SameRate(rs[t[i]], rs[t[j]]) {
      var k := if i < |t| - 1 then i else |u| - 1;
      var l := if j < |t| - 1 then j else |u| - 1;
      assert t[i] == u[k] && t[j] == u[l];
    }
  }

  lemma ComparablePermutes(rs: seq<Reading>, s: seq<nat>, t: seq<nat>)
    requires Indices(rs, s) && Indices(rs, t) && multiset(t) <= multiset(s) && Comparable(rs, s)
    ensures Comparable(rs, t)
  {
    forall i, j | 0 <= i < |t| && 0 <= j < |t| ensures CrossFits(rs[t[i]], rs[t[j]]) || SameRate(rs[t[i]], rs[t[j]]) {
      assert t[i] in multiset(t) && t[j] in multiset(t);
      assert t[i] in multiset(s) && t[j] in multiset(s);
      var k :| 0 <= k < |s| && s[k] == t[i];
      var l :| 0 <= l < |s| && s[l] == t[j];
    }
  }

  lemma {:induction false} SortOrders(rs: seq<Reading>, s: seq<nat>)
    requires Indices(rs, s) && Comparable(rs, s)
    ensures Ordered(rs, SortByRate(rs, s))
  {
    if s != [] {
      var front, last := s[..|s| - 1], s[|s| - 1];
      assert s == front + [last];
      ComparablePermutes(rs, s, front);
      SortOrders(rs, front);
      SortPermutes(rs, front);
      assert multiset(SortByRate(rs, front) + [last]) == multiset(s);
      ComparablePermutes(rs, s, SortByRate(rs, front) + [last]);
      InsertOrders(rs, SortByRate(rs, front), last);
    }
  }

  // ----- when every listing sorts right -----

  predicate Before(s: seq<nat>, x: nat, y: nat) {
    exists p, q :: 0 <= p < q < |s| && s[p] == x && s[q] == y
  }

  /** Inserting never swaps two indices that are already placed. */
  lemma {:induction false} InsertKeepsBefore(rs: seq<Reading>, s: seq<nat>, z: nat, x: nat, y: nat)
    requires Indices(rs, s) && z < |rs| && Before(s, x, y)
    ensures Before(InsertRate(rs, s, z), x, y)
  {
    var p, q :| 0 <= p < q < |s| && s[p] == x && s[q] == y;
    var front, last, r := s[..|s| - 1], s[|s| - 1], InsertRate(rs, s, z);
    if !Compare(rs[z], rs[last]).Less? {
      assert r[p] == x && r[q] == y;
    } else if q == |s| - 1 {
      var inserted := InsertRate(rs, front, z);
      InsertPermutes(rs, front, z);
      assert front[p] in multiset(front) && x in multiset(inserted);
      var k :| 0 <= k < |inserted| && inserted[k] == x;
      assert r[k] == x && r[|r| - 1] == y;
    } else {
      assert front[p] == x && front[q] == y;
      InsertKeepsBefore(rs, front, z, x, y);
      var k, l :| 0 <= k < l < |r| - 1 && InsertRate(rs, front, z)[k] == x && InsertRate(rs, front, z)[l] == y;
      assert r[k] == x && r[l] == y;
    }
  }

  /** A pair that cannot be compared and is listed first keeps its order. */
  lemma {:induction false} FirstPairStays(rs: seq<Reading>, x: nat, y: nat, rest: seq<nat>)
    requires x < |rs| && y < |rs| && Indices(rs, rest) && !CrossFits(rs[x], rs[y])
    ensures Indices(rs, [x, y] + rest) && Before(SortByRate(rs, [x, y] + rest), x, y)
  {
    var t := [x, y] + rest;
    if rest == [] {
      assert t[..1] == [x] && [x][..0] == [];
      assert SortByRate(rs, [x]) == [x];
      assert Compare(rs[y], rs[x]).Equal?;
      assert SortByRate(rs, t) == [x, y];
      assert SortByRate(rs, t)[0] == x && SortByRate(rs, t)[1] == y;
    } else {
      var front := rest[..|rest| - 1];
      assert t[..|t| - 1] == [x, y] + front;
      FirstPairStays(rs, x, y, front);
      InsertKeepsBefore(rs, SortByRate(rs, [x, y] + front), t[|t| - 1], x, y);
    }
  }

  lemma WithoutOne(s: seq<nat>, x: nat) returns (rest: seq<nat>)
    requires x in s
    ensures multiset(rest) + multiset{x} == multiset(s)
    ensures forall y :: y in rest ==> y in s
    ensures forall y :: y in s && y != x ==> y in rest
  {
    var i :| 0 <= i < |s| && s[i] == x;
    var front, back := s[..i], s[i + 1..];
    rest := front + back;
    assert s == front + [x] + back;
  }

  lemma IncomparablePair(rs: seq<Reading>, s: seq<nat>) returns (i: nat, j: nat)
    requires Indices(rs, s) && !Comparable(rs, s)
    ensures i < |s| && j < |s| && s[i] != s[j] && !CrossFits(rs[s[i]], rs[s[j]]) && !CrossFits(rs[s[j]], rs[s[i]])
    ensures !SameRate(rs[s[i]], rs[s[j]])
  {
    i, j :| 0 <= i < |s| && 0 <= j < |s| && !CrossFits(rs[s[i]], rs[s[j]]) && !SameRate(rs[s[i]], rs[s[j]]);
  }

  /** If two readings cannot be compared, some listing of the same readings is
      sorted with the dearer one in front. */
  lemma MisordersSome(rs: seq<Reading>, s: seq<nat>) returns (t: seq<nat>)
    requires Indices(rs, s) && !Comparable(rs, s)
    ensures Indices(rs, t) && multiset(t) == multiset(s) && !Ordered(rs, SortByRate(rs, t))
  {
    var i, j := IncomparablePair(rs, s);
    var swap := Le(RateOf(rs[s[i]]), RateOf(rs[s[j]]));
    var dear, cheap := if swap then s[j] else s[i], if swap then s[i] else s[j];
    var others := WithoutOne(s, dear);
    var rest := WithoutOne(others, cheap);
    forall k | 0 <= k < |rest| ensures rest[k] < |rs| { assert rest[k] in s; }
    t := [dear, cheap] + rest;
    FirstPairStays(rs, dear, cheap, rest);
    StaysMisordered(rs, SortByRate(rs, t), dear, cheap);
  }

  lemma StaysMisordered(rs: seq<Reading>, r: seq<nat>, dear: nat, cheap: nat)
    requires Indices(rs, r) && dear < |rs| && cheap < |rs| && Before(r, dear, cheap) && !Le(RateOf(rs[dear]), RateOf(rs[cheap]))
    ensures !Ordered(rs, r)
  {
    var p, q :| 0 <= p < q < |r| && r[p] == dear && r[q] == cheap;
    assert !Le(RateOf(rs[r[p]]), RateOf(rs[r[q]]));
  }

  /** The sort puts the readings in true order however they are listed, if and only
      if any two of them can be compared. */
  lemma SortOrdersExactly(rs: seq<Reading>, s: seq<nat>)
    requires Indices(rs, s)
    ensures (forall t: seq<nat> :: Indices(rs, t) && multiset(t) == multiset(s) ==> Ordered(rs, SortByRate(rs, t)))
            <==> Comparable(rs, s)
  {
    if Comparable(rs, s) {
      forall t: seq<nat> | Indices(rs, t) && multiset(t) == multiset(s) ensures Ordered(rs, SortByRate(rs, t)) {
        ComparablePermutes(rs, s, t);
        SortOrders(rs, t);
      }
    } else {
      var t := MisordersSome(rs, s);
    }
  }

  // ----- the spread -----

  /** How many basis points `high` is above `low`, rounded up. */
  function Spread(high: U256, low: U256): Result<U32, PriceError> {
    if high <= low then Ok(0)
    else if (high - low) * BPS_SCALE >= U256_LIMIT || low == 0 then Err(Overflow)
    else
      var rounded := RoundUp((high - low) * BPS_SCALE, low);
      if rounded.Err? || rounded.value > U32_MAX then Err(Overflow) else Ok(rounded.value)
  }

  /** `deviation_bps`: the spread between two readings. */
  function DeviationBps(lowest: Reading, highest: Reading): Result<U32, PriceError> {
    var high, low := CheckedMul(highest.num, lowest.den), CheckedMul(lowest.num, highest.den);
    if high.None? || low.None? then Err(Overflow) else Spread(high.value, low.value)
  }

  /** `high` exceeds `low` by at most `bps` basis points. */
  predicate Within(low: Ratio, high: Ratio, bps: nat) {
    Le(Scale(high, BPS_SCALE), Scale(low, BPS_SCALE + bps))
  }

  /** The answer is the least number of basis points the spread fits in. */
  lemma DeviationIsLeast(lowest: Reading, highest: Reading)
    requires DeviationBps(lowest, highest).Ok?
    ensures var d := DeviationBps(lowest, highest).value;
            && Within(RateOf(lowest), RateOf(highest), d)
            && (d > 0 ==> !Within(RateOf(lowest), RateOf(highest), d - 1))
  {
    var h, l := CheckedMul(highest.num, lowest.den).value, CheckedMul(lowest.num, highest.den).value;
    var d := DeviationBps(lowest, highest).value;
    ProductIs(highest.num, lowest.den);
    ProductIs(lowest.num, highest.den);
    SpreadIsLeast(h, l);
    ScaledForm(lowest, highest, h, l, d);
    if d > 0 { ScaledForm(lowest, highest, h, l, d - 1); }
  }

  lemma SpreadIsLeast(h: U256, l: U256)
    requires Spread(h, l).Ok?
    ensures var d := Spread(h, l).value;
            h * BPS_SCALE <= l * (BPS_SCALE + d) && (d > 0 ==> h * BPS_SCALE > l * (BPS_SCALE + d - 1))
  {
    if h > l {
      RoundUpIsCeil((h - l) * BPS_SCALE, l);
      CeilForm(h, l, Spread(h, l).value);
    }
  }

  lemma ScaledForm(lowest: Reading, highest: Reading, h: nat, l: nat, d: nat)
    requires h == highest.num * lowest.den && l == lowest.num * highest.den
    ensures Within(RateOf(lowest), RateOf(highest), d) <==> h * BPS_SCALE <= l * (BPS_SCALE + d)
  {
    Swap3(highest.num, lowest.den, BPS_SCALE);
    Swap3(lowest.num, highest.den, BPS_SCALE + d);
  }

  lemma CeilForm(h: nat, l: nat, d: int)
    requires IsCeil(d, (h - l) * BPS_SCALE, l)
    ensures h * BPS_SCALE <= l * (BPS_SCALE + d)
    ensures h * BPS_SCALE > l * (BPS_SCALE + d - 1)
  {
    assert l * (BPS_SCALE + d) == l * BPS_SCALE + d * l;
    assert l * (BPS_SCALE + (d - 1)) == l * BPS_SCALE + (d - 1) * l;
  }

  /** Exactly when a spread cannot be stated: the scaled difference exceeds 256 bits
      or the basis points exceed 32. */
  lemma SpreadRefuses(h: U256, l: U256)
    requires l > 0
    ensures Spread(h, l).Err? <==> h > l && ((h - l) * 10_000 >= U256_LIMIT || (h - l) * 10_000 > l * 0xFFFF_FFFF)
    ensures Spread(h, l).Err? ==> Spread(h, l).error == Overflow
    ensures h <= l ==> Spread(h, l) == Ok(0)
  {
    if h > l && (h - l) * BPS_SCALE < U256_LIMIT {
      RoundUpIsCeil((h - l) * BPS_SCALE, l);
      CeilBeyond((h - l) * BPS_SCALE, l, RoundUp((h - l) * BPS_SCALE, l).value);
    }
  }

  lemma CeilBeyond(x: nat, l: nat, v: int)
    requires l > 0 && IsCeil(v, x, l)
    ensures v > 0xFFFF_FFFF <==> x > l * 0xFFFF_FFFF
  {
    if v > 0xFFFF_FFFF { MulLe(0xFFFF_FFFF, v - 1, l); } else { MulLe(v, 0xFFFF_FFFF, l); }
  }

  /** And of two readings: also when their cross products do not fit. */
  lemma DeviationRefuses(lowest: Reading, highest: Reading)
    ensures var d := DeviationBps(lowest, highest);
            && (!CrossFits(lowest, highest) ==> d == Err(Overflow))
            && (CrossFits(lowest, highest) ==> d == Spread(Product(highest.num, lowest.den), Product(lowest.num, highest.den)))
            && (d.Err? ==> d.error == Overflow)
  {
    ProductPositive(lowest.num, highest.den);
    if CrossFits(lowest, highest) { SpreadRefuses(Product(highest.num, lowest.den), Product(lowest.num, highest.den)); }
  }

  // ----- the middle -----

  /** `median`: the middle reading, or the exact mean of the middle two in
      lowest terms. */
  function Median(rs: seq<Reading>, s: seq<nat>): (r: Result<(Amount, Amount), PriceError>)
    requires Indices(rs, s)
  {
    if s == [] then Err(NoReadings)
    else if |s| % 2 == 1 then Ok((rs[s[|s| / 2]].num, rs[s[|s| / 2]].den))
    else
      var left, right := rs[s[|s| / 2 - 1]], rs[s[|s| / 2]];
      MeanOf(left, right)
  }

  function MeanOf(left: Reading, right: Reading): (r: Result<(Amount, Amount), PriceError>) {
    var leftCross, rightCross := CheckedMul(left.num, right.den), CheckedMul(right.num, left.den);
    var dens := CheckedMul(left.den, right.den);
    if leftCross.None? || rightCross.None? || leftCross.value + rightCross.value >= U256_LIMIT then Err(Overflow)
    else if dens.None? || dens.value * 2 >= U256_LIMIT then Err(Overflow)
    else
      var mean := Ratio(leftCross.value + rightCross.value, dens.value * 2);
      ProductPositive(left.num, right.den);
      ProductPositive(left.den, right.den);
      ReducedFits(mean);
      Ok((Reduce(mean).n, Reduce(mean).d))
  }

  /** Exactly when a mean cannot be stated. */
  lemma MeanRefuses(left: Reading, right: Reading)
    ensures MeanOf(left, right).Err? <==>
            || !CrossFits(left, right) || Product(left.num, right.den) + Product(right.num, left.den) >= U256_LIMIT
            || Product(left.den, right.den) + Product(left.den, right.den) >= U256_LIMIT
    ensures MeanOf(left, right).Err? ==> MeanOf(left, right).error == Overflow
  {}

  /** Reduced terms are positive and no larger, so they are amounts again. */
  lemma ReducedFits(a: Ratio)
    requires a.n > 0 && a.d > 0
    ensures 0 < Reduce(a).n <= a.n && 0 < Reduce(a).d <= a.d
  {
    ReduceExact(a);
    MulGrows(Reduce(a).n, Gcd(a.n, a.d));
    MulGrows(Reduce(a).d, Gcd(a.n, a.d));
  }

  /** The terms before reduction are those of the exact mean. */
  lemma MeanOfTerms(left: Reading, right: Reading)
    requires MeanOf(left, right).Ok?
    ensures var mean := Mean(RateOf(left), RateOf(right));
            mean.n > 0 && mean.d > 0 && Ratio(MeanOf(left, right).value.0, MeanOf(left, right).value.1) == Reduce(mean)
  {
    ProductIs(left.num, right.den);
    ProductIs(right.num, left.den);
    ProductIs(left.den, right.den);
    ProductPositive(left.num, right.den);
    ProductPositive(left.den, right.den);
  }

  lemma ReducedMeanIsBetween(a: Ratio, b: Ratio)
    requires Le(a, b) && Mean(a, b).n > 0 && Mean(a, b).d > 0
    ensures var m := Reduce(Mean(a, b)); Le(a, m) && Le(m, b) && LowestTerms(m)
  {
    var mean := Mean(a, b);
    MeanBetween(a, b);
    ReduceExact(mean);
    LeReduced(Reduce(mean), Gcd(mean.n, mean.d), a);
    LeReduced(Reduce(mean), Gcd(mean.n, mean.d), b);
  }

  lemma MeanIsBetween(left: Reading, right: Reading)
    requires Le(RateOf(left), RateOf(right)) && MeanOf(left, right).Ok?
    ensures var m := Ratio(MeanOf(left, right).value.0, MeanOf(left, right).value.1);
            Le(RateOf(left), m) && Le(m, RateOf(right)) && LowestTerms(m)
  {
    MeanOfTerms(left, right);
    ReducedMeanIsBetween(RateOf(left), RateOf(right));
  }

  /** The middle of an ordered list lies between its ends. */
  lemma MedianIsBetween(rs: seq<Reading>, s: seq<nat>)
    requires Indices(rs, s) && Ordered(rs, s) && Median(rs, s).Ok?
    ensures s != []
    ensures var m := Ratio(Median(rs, s).value.0, Median(rs, s).value.1);
            && Le(RateOf(rs[s[0]]), m) && Le(m, RateOf(rs[s[|s| - 1]]))
            && (|s| % 2 == 0 ==> LowestTerms(m))
  {
    var k := |s| / 2;
    var m := Ratio(Median(rs, s).value.0, Median(rs, s).value.1);
    if |s| % 2 == 0 {
      MeanIsBetween(rs[s[k - 1]], rs[s[k]]);
      FirstAndLast(rs, s, k - 1);
      FirstAndLast(rs, s, k);
      LeTransitive(RateOf(rs[s[0]]), RateOf(rs[s[k - 1]]), m);
      LeTransitive(m, RateOf(rs[s[k]]), RateOf(rs[s[|s| - 1]]));
    } else {
      FirstAndLast(rs, s, k);
    }
  }

  lemma FirstAndLast(rs: seq<Reading>, s: seq<nat>, k: nat)
    requires Indices(rs, s) && Ordered(rs, s) && k < |s|
    ensures Le(RateOf(rs[s[0]]), RateOf(rs[s[k]])) && Le(RateOf(rs[s[k]]), RateOf(rs[s[|s| - 1]]))
  {}

  /** `m` is the mean of `a` and `b`, by cross-multiplication. */
  predicate IsMeanOf(m: Ratio, a: Ratio, b: Ratio) {
    m.n * (2 * (a.d * b.d)) == m.d * (a.n * b.d + b.n * a.d)
  }

  ghost function AtOrBelow(rs: seq<Reading>, s: seq<nat>, m: Ratio): set<nat>
    requires Indices(rs, s)
  {
    set k: nat | k < |s| && Le(RateOf(rs[s[k]]), m)
  }

  ghost function AtOrAbove(rs: seq<Reading>, s: seq<nat>, m: Ratio): set<nat>
    requires Indices(rs, s)
  {
    set k: nat | k < |s| && Le(m, RateOf(rs[s[k]]))
  }

  /** At least half of the readings are at or below `m` and at least half at or
      above; of an odd number it is one of them, of an even number the mean of the
      two in the middle. */
  ghost predicate IsMedian(rs: seq<Reading>, s: seq<nat>, m: Ratio) {
    && Indices(rs, s) && s != []
    && 2 * |AtOrBelow(rs, s, m)| >= |s| && 2 * |AtOrAbove(rs, s, m)| >= |s|
    && (|s| % 2 == 1 ==> exists k: nat :: k < |s| && m == RateOf(rs[s[k]]))
    && (|s| % 2 == 0 ==> IsMeanOf(m, RateOf(rs[s[|s| / 2 - 1]]), RateOf(rs[s[|s| / 2]])))
  }

  lemma MeanIsExact(left: Reading, right: Reading)
    requires MeanOf(left, right).Ok?
    ensures IsMeanOf(Ratio(MeanOf(left, right).value.0, MeanOf(left, right).value.1), RateOf(left), RateOf(right))
  {
    MeanOfTerms(left, right);
    ReducedIsSame(Mean(RateOf(left), RateOf(right)));
    MeanTerms(RateOf(left), RateOf(right));
  }

  lemma MeanTerms(a: Ratio, b: Ratio)
    ensures Mean(a, b).n == a.n * b.d + b.n * a.d && Mean(a, b).d == 2 * (a.d * b.d)
  {}

  lemma ReducedIsSame(a: Ratio)
    requires a.n > 0 && a.d > 0
    ensures Reduce(a).n * a.d == Reduce(a).d * a.n
  {
    ReduceExact(a);
    CrossEqual(Reduce(a).n, Reduce(a).d, Gcd(a.n, a.d));
  }

  lemma CrossEqual(x: nat, y: nat, g: nat)
    ensures x * (y * g) == y * (x * g)
  {}

  /** Where the middle of an ordered list lies, position by position. */
  lemma MedianSplits(rs: seq<Reading>, s: seq<nat>, k: nat)
    requires Indices(rs, s) && Ordered(rs, s) && Median(rs, s).Ok? && k < |s|
    ensures var m := Ratio(Median(rs, s).value.0, Median(rs, s).value.1);
            && (2 * k < |s| ==> Le(RateOf(rs[s[k]]), m))
            && (2 * k + 2 > |s| ==> Le(m, RateOf(rs[s[k]])))
  {
    var m, h := Ratio(Median(rs, s).value.0, Median(rs, s).value.1), |s| / 2;
    if |s| % 2 == 0 {
      var left, right := rs[s[h - 1]], rs[s[h]];
      MeanIsBetween(left, right);
      if k < h {
        if k < h - 1 { LeTransitive(RateOf(rs[s[k]]), RateOf(left), m); }
      } else {
        if k > h { LeTransitive(m, RateOf(right), RateOf(rs[s[k]])); }
      }
    }
  }

  lemma MedianIsMedian(rs: seq<Reading>, s: seq<nat>)
    requires Indices(rs, s) && Ordered(rs, s) && Median(rs, s).Ok?
    ensures IsMedian(rs, s, Ratio(Median(rs, s).value.0, Median(rs, s).value.1))
  {
    var m, h := Ratio(Median(rs, s).value.0, Median(rs, s).value.1), |s| / 2;
    forall k: nat | k < |s|
      ensures (2 * k < |s| ==> Le(RateOf(rs[s[k]]), m)) && (2 * k + 2 > |s| ==> Le(m, RateOf(rs[s[k]])))
    {
      MedianSplits(rs, s, k);
    }
    HalfAndHalf(rs, s, m);
    if |s| % 2 == 0 { MeanIsExact(rs[s[h - 1]], rs[s[h]]); } else { assert m == RateOf(rs[s[h]]); }
  }

  lemma HalfAndHalf(rs: seq<Reading>, s: seq<nat>, m: Ratio)
    requires Indices(rs, s)
    requires forall k: nat :: k < |s| && 2 * k < |s| ==> Le(RateOf(rs[s[k]]), m)
    requires forall k: nat :: k < |s| && 2 * k + 2 > |s| ==> Le(m, RateOf(rs[s[k]]))
    ensures 2 * |AtOrBelow(rs, s, m)| >= |s| && 2 * |AtOrAbove(rs, s, m)| >= |s|
  {
    var upper := (|s| + 1) / 2;
    assert Span(0, upper) <= AtOrBelow(rs, s, m);
    SubsetSize(Span(0, upper), AtOrBelow(rs, s, m));
    assert Span(|s| - upper, |s|) <= AtOrAbove(rs, s, m);
    SubsetSize(Span(|s| - upper, |s|), AtOrAbove(rs, s, m));
  }

  // ----- the rate behind one reading per group -----

  datatype Rate = Rate(num: Amount, den: Amount, deviationBps: U32, used: seq<nat>)

  /** The end of `aggregate`: check the spread of the ends, take the middle. */
  function RateOfSorted(rs: seq<Reading>, sorted: seq<nat>, policy: Policy): (r: Result<Rate, PriceError>)
    requires Indices(rs, sorted)
  {
    if sorted == [] then Err(NoReadings)
    else
      var deviation := DeviationBps(rs[sorted[0]], rs[sorted[|sorted| - 1]]);
      if deviation.Err? then Err(deviation.error)
      else if deviation.value > policy.maxDeviationBps then Err(Diverged(deviation.value, policy.maxDeviationBps))
      else
        var middle := Median(rs, sorted);
        if middle.Err? then Err(middle.error)
        else Ok(Rate(middle.value.0, middle.value.1, deviation.value, sorted))
  }

  /** `aggregate` once each group has its reading. */
  function RateFrom(rs: seq<Reading>, perGroup: seq<nat>, policy: Policy): (r: Result<Rate, PriceError>)
    requires Indices(rs, perGroup)
  {
    RateOfSorted(rs, SortByRate(rs, perGroup), policy)
  }

  /** The used rates are in order, any two of them are within the ceiling, the
      rate lies between the lowest and the highest, and a mean is in lowest terms. */
  ghost predicate Trustworthy(rs: seq<Reading>, policy: Policy, rate: Rate) {
    && Indices(rs, rate.used) && rate.used != [] && Ordered(rs, rate.used)
    && (forall i, j :: 0 <= i < |rate.used| && 0 <= j < |rate.used| ==>
          Within(RateOf(rs[rate.used[i]]), RateOf(rs[rate.used[j]]), policy.maxDeviationBps))
    && Le(RateOf(rs[rate.used[0]]), Ratio(rate.num, rate.den))
    && Le(Ratio(rate.num, rate.den), RateOf(rs[rate.used[|rate.used| - 1]]))
    && (|rate.used| % 2 == 0 ==> LowestTerms(Ratio(rate.num, rate.den)))
  }

  lemma WithinCeiling(low: Ratio, high: Ratio, x: Ratio, y: Ratio, bps: nat, ceiling: nat)
    requires low.d > 0 && high.d > 0 && Within(low, high, bps) && bps <= ceiling && Le(low, x) && Le(y, high)
    ensures Within(x, y, ceiling)
  {
    LeScale(y, high, BPS_SCALE);
    LeScale(low, x, BPS_SCALE + bps);
    LeTransitive(Scale(y, BPS_SCALE), Scale(high, BPS_SCALE), Scale(low, BPS_SCALE + bps));
    LeTransitive(Scale(y, BPS_SCALE), Scale(low, BPS_SCALE + bps), Scale(x, BPS_SCALE + bps));
    MulLe(BPS_SCALE + bps, BPS_SCALE + ceiling, x.n);
    MulLe(x.n * (BPS_SCALE + bps), x.n * (BPS_SCALE + ceiling), y.d);
  }

  /** Why there is no rate: no readings, a spread that cannot be stated or exceeds the
      ceiling, or a mean that cannot be stated, in that order. */
  lemma RateRefuses(rs: seq<Reading>, s: seq<nat>, policy: Policy)
    requires Indices(rs, s)
    ensures var r := RateOfSorted(rs, s, policy);
            && (r == Err(NoReadings) <==> s == [])
            && (s != [] ==>
                  var d := DeviationBps(rs[s[0]], rs[s[|s| - 1]]);
                  && (r.Err? && r.error.Diverged? <==> d.Ok? && d.value > policy.maxDeviationBps)
                  && (d.Ok? && d.value > policy.maxDeviationBps ==> r == Err(Diverged(d.value, policy.maxDeviationBps)))
                  && (r == Err(Overflow) <==> d.Err? || (d.value <= policy.maxDeviationBps && |s| % 2 == 0
                                                         && MeanOf(rs[s[|s| / 2 - 1]], rs[s[|s| / 2]]).Err?))
                  && (r.Ok? ==> r.value.deviationBps == d.value && r.value.used == s))
  {
    if s != [] {
      DeviationRefuses(rs[s[0]], rs[s[|s| - 1]]);
      if |s| % 2 == 0 { MeanRefuses(rs[s[|s| / 2 - 1]], rs[s[|s| / 2]]); }
    }
  }

  /** A rate whose readings were sorted into true order can be trusted. */
  lemma OrderedIsTrustworthy(rs: seq<Reading>, perGroup: seq<nat>, policy: Policy)
    requires Indices(rs, perGroup) && RateFrom(rs, perGroup, policy).Ok? && Ordered(rs, SortByRate(rs, perGroup))
    ensures Trustworthy(rs, policy, RateFrom(rs, perGroup, policy).value)
  {
    SortedIsTrustworthy(rs, SortByRate(rs, perGroup), policy);
  }

  lemma SortedIsTrustworthy(rs: seq<Reading>, s: seq<nat>, policy: Policy)
    requires Indices(rs, s) && Ordered(rs, s) && RateOfSorted(rs, s, policy).Ok?
    ensures Trustworthy(rs, policy, RateOfSorted(rs, s, policy).value)
  {
    MedianIsBetween(rs, s);
    AllWithin(rs, s, policy.maxDeviationBps);
  }

  lemma AllWithin(rs: seq<Reading>, s: seq<nat>, ceiling: nat)
    requires Indices(rs, s) && Ordered(rs, s) && s != []
    requires var d := DeviationBps(rs[s[0]], rs[s[|s| - 1]]); d.Ok? && d.value <= ceiling
    ensures forall i, j :: 0 <= i < |s| && 0 <= j < |s| ==> Within(RateOf(rs[s[i]]), RateOf(rs[s[j]]), ceiling)
  {
    forall i, j | 0 <= i < |s| && 0 <= j < |s| ensures Within(RateOf(rs[s[i]]), RateOf(rs[s[j]]), ceiling) {
      PairWithin(rs, s, ceiling, i, j);
    }
  }

  /** When the ends of an ordered list are within the ceiling, so are any two. */
  lemma PairWithin(rs: seq<Reading>, s: seq<nat>, ceiling: nat, i: nat, j: nat)
    requires Indices(rs, s) && Ordered(rs, s) && i < |s| && j < |s|
    requires var d := DeviationBps(rs[s[0]], rs[s[|s| - 1]]); d.Ok? && d.value <= ceiling
    ensures Within(RateOf(rs[s[i]]), RateOf(rs[s[j]]), ceiling)
  {
    var low, high := rs[s[0]], rs[s[|s| - 1]];
    DeviationIsLeast(low, high);
    FirstAndLast(rs, s, i);
    FirstAndLast(rs, s, j);
    WithinCeiling(RateOf(low), RateOf(high), RateOf(rs[s[i]]), RateOf(rs[s[j]]), DeviationBps(low, high).value, ceiling);
  }

  lemma SpreadFits(l: Reading, r: Reading)
    requires DeviationBps(l, r).Ok?
    ensures CrossFits(l, r) && CrossFits(r, l)
  {}

  /** Up to two readings are always comparable once a rate comes out: the spread
      between them was computed from the same products. */
  lemma TwoAreComparable(rs: seq<Reading>, perGroup: seq<nat>, policy: Policy)
    requires Indices(rs, perGroup) && |perGroup| <= 2 && RateFrom(rs, perGroup, policy).Ok?
    ensures Comparable(rs, perGroup)
  {
    var s := SortByRate(rs, perGroup);
    SpreadFits(rs[s[0]], rs[s[|s| - 1]]);
    forall i, j | 0 <= i < |s| && 0 <= j < |s| ensures CrossFits(rs[s[i]], rs[s[j]]) || SameRate(rs[s[i]], rs[s[j]]) {
      assert i == j || {i, j} == {0, |s| - 1};
    }
    SortPermutes(rs, perGroup);
    ComparablePermutes(rs, s, perGroup);
  }

  /** So a rate from at most two readings, or from readings that can be compared,
      can be trusted. */
  lemma RateIsTrustworthy(rs: seq<Reading>, perGroup: seq<nat>, policy: Policy)
    requires Indices(rs, perGroup) && RateFrom(rs, perGroup, policy).Ok?
    requires |perGroup| <= 2 || Comparable(rs, perGroup)
    ensures Trustworthy(rs, policy, RateFrom(rs, perGroup, policy).value)
  {
    if |perGroup| <= 2 { TwoAreComparable(rs, perGroup, policy); }
    SortOrders(rs, perGroup);
    OrderedIsTrustworthy(rs, perGroup, policy);
  }

  /** And it is their median. */
  lemma RateIsMedian(rs: seq<Reading>, perGroup: seq<nat>, policy: Policy)
    requires Indices(rs, perGroup) && RateFrom(rs, perGroup, policy).Ok?
    requires |perGroup| <= 2 || Comparable(rs, perGroup)
    ensures var rate := RateFrom(rs, perGroup, policy).value; IsMedian(rs, rate.used, Ratio(rate.num, rate.den))
  {
    if |perGroup| <= 2 { TwoAreComparable(rs, perGroup, policy); }
    SortOrders(rs, perGroup);
    SortedIsMedian(rs, SortByRate(rs, perGroup), policy);
  }

  lemma SortedIsMedian(rs: seq<Reading>, s: seq<nat>, policy: Policy)
    requires Indices(rs, s) && Ordered(rs, s) && RateOfSorted(rs, s, policy).Ok?
    ensures var rate := RateOfSorted(rs, s, policy).value; rate.used == s && IsMedian(rs, s, Ratio(rate.num, rate.den))
  {
    MedianIsMedian(rs, s);
  }

  /** A refusal for divergence is real: the two ends it names exceed the ceiling. */
  lemma DivergedIsReal(rs: seq<Reading>, perGroup: seq<nat>, policy: Policy)
    requires Indices(rs, perGroup)
    requires RateFrom(rs, perGroup, policy).Err? && RateFrom(rs, perGroup, policy).error.Diverged?
    ensures exists x, y :: x in perGroup && y in perGroup && !Within(RateOf(rs[x]), RateOf(rs[y]), policy.maxDeviationBps)
  {
    var s := SortByRate(rs, perGroup);
    var low, high := rs[s[0]], rs[s[|s| - 1]];
    DeviationIsLeast(low, high);
    var d := DeviationBps(low, high).value;
    if Within(RateOf(low), RateOf(high), policy.maxDeviationBps) {
      WithinCeiling(RateOf(low), RateOf(high), RateOf(low), RateOf(high), policy.maxDeviationBps, d - 1);
    }
    SortPermutes(rs, perGroup);
    assert s[0] in multiset(perGroup) && s[|s| - 1] in multiset(perGroup);
  }
}
