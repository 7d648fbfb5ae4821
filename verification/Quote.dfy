/** From a price snapshot to the amount a payer is asked for
    (crates/gateway-domain/src/quote.rs). */
module Quote {
  import opened Clock
  import opened Common
  import opened Money
  import opened Price
  import opened Aggregation

  datatype RailHealth = Healthy | Degraded | Unavailable

  /** The evidence column as read: not a list, or a list whose entries may or may
      not name a provider group. */
  type Sources = Option<seq<Option<string>>>

  datatype PriceSnapshot = PriceSnapshot(num: Amount, den: Amount, sources: Sources, observedAt: Instant)

  datatype QuotePolicy = QuotePolicy(
    version: string, ttl: int, lateWindow: int, slots: nat,
    maxPriceAge: int, maxPolicyAge: int, maxRailAge: int, observedAt: Instant)

  datatype Rail = Rail(health: RailHealth, observedAt: Instant)

  datatype QuoteError =
    | UnknownPrice | UnknownPolicy | UnknownRailHealth
    | StalePrice | StalePolicy | StaleRailHealth | UnhealthyRail
    | InvalidPriceSources | InvalidCollectorAddress | InvalidPolicy
    | MoneyFault(fault: MoneyError)

  datatype Plan = Plan(baseAmount: Amount, num: Amount, den: Amount, createdAt: Instant, expiresAt: Instant, lateUntil: Instant)

  const MAX_AMOUNT_SLOT_COUNT: nat := 10_000

  predicate ValidPolicy(p: QuotePolicy) {
    && p.version != "" && |p.version| <= 100 && p.ttl > 0 && p.lateWindow > 0
    && 1 <= p.slots <= MAX_AMOUNT_SLOT_COUNT
    && p.maxPriceAge >= 0 && p.maxPolicyAge >= 0 && p.maxRailAge >= 0
  }

  predicate ValidAge(now: Instant, observedAt: Instant, maxAge: int) {
    var deadline := CheckedLater(observedAt, maxAge);
    deadline.Some? && observedAt <= now && now <= deadline.value
  }

  /** The non-empty group names among the entries. */
  function Groups(s: seq<Option<string>>): set<string> {
    set i | 0 <= i < |s| && s[i].Some? && s[i].value != "" :: s[i].value
  }

  predicate IndependentSources(sources: Sources) {
    && sources.Some? && |sources.value| >= 2
    && |Groups(sources.value)| >= 2 && |Groups(sources.value)| == |sources.value|
  }

  /** The counting test says: at least two entries, each names a group, and no
      group is named twice. */
  lemma SourcesAreIndependent(sources: Sources)
    ensures IndependentSources(sources) <==>
            && sources.Some? && |sources.value| >= 2
            && (forall i :: 0 <= i < |sources.value| ==> sources.value[i].Some? && sources.value[i].value != "")
            && (forall i, j :: 0 <= i < j < |sources.value| ==> sources.value[i] != sources.value[j])
  {
    if sources.Some? {
      CountNamed(sources.value);
    }
  }

  /** As many names as entries exactly when all entries name a group and differ. */
  lemma {:induction false} CountNamed(s: seq<Option<string>>)
    ensures |Groups(s)| <= |s|
    ensures |Groups(s)| == |s| <==>
            && (forall i :: 0 <= i < |s| ==> s[i].Some? && s[i].value != "")
            && (forall i, j :: 0 <= i < j < |s| ==> s[i] != s[j])
  {
    if s != [] {
      var front, last := s[..|s| - 1], s[|s| - 1];
      CountNamed(front);
      GroupsGrow(front, last);
      assert s == front + [last];
    }
  }

  lemma GroupsGrow(front: seq<Option<string>>, last: Option<string>)
    ensures Groups(front + [last]) == Groups(front) + (if last.Some? && last.value != "" then {last.value} else {})
  {
    var s := front + [last];
    assert s[|front|] == last;
    forall g | g in Groups(front) ensures g in Groups(s) {
      var i :| 0 <= i < |front| && front[i] == Some(g);
      assert s[i] == front[i];
    }
  }

  /** `QuotePlan::build`, checks in the source's order. */
  function Build(fiatMinor: int, collector: string, price: Option<PriceSnapshot>, policy: Option<QuotePolicy>,
                 rail: Option<Rail>, now: Instant): (r: Result<Plan, QuoteError>)
    requires fiatMinor < 0x1_0000_0000_0000_0000
  {
    if price.None? then Err(UnknownPrice)
    else if policy.None? then Err(UnknownPolicy)
    else if rail.None? then Err(UnknownRailHealth)
    else
      var p, q, h := price.value, policy.value, rail.value;
      if !ValidPolicy(q) then Err(InvalidPolicy)
      else if !ValidAge(now, p.observedAt, q.maxPriceAge) then Err(StalePrice)
      else if !ValidAge(now, q.observedAt, q.maxPolicyAge) then Err(StalePolicy)
      else if !ValidAge(now, h.observedAt, q.maxRailAge) then Err(StaleRailHealth)
      else if !h.health.Healthy? then Err(UnhealthyRail)
      else if collector == "" || |collector| > 200 then Err(InvalidCollectorAddress)
      else if !IndependentSources(p.sources) then Err(InvalidPriceSources)
      else if fiatMinor < 0 then Err(InvalidPolicy)
      else
        var base := MulDivCeil(fiatMinor, p.num, p.den);
        if base.Err? then Err(MoneyFault(base.error))
        else
          var expires := CheckedLater(now, q.ttl);
          if expires.None? then Err(InvalidPolicy)
          else
            var late := CheckedLater(expires.value, q.lateWindow);
            if late.None? then Err(InvalidPolicy)
            else Ok(Plan(base.value, p.num, p.den, now, expires.value, late.value))
  }

  /** Evidence that is present, valid, fresh, healthy and independent. */
  predicate Sound(collector: string, price: Option<PriceSnapshot>, policy: Option<QuotePolicy>, rail: Option<Rail>, now: Instant) {
    && price.Some? && policy.Some? && rail.Some? && WellFormed(policy.value)
    && Fresh(now, price.value.observedAt, policy.value.maxPriceAge)
    && Fresh(now, policy.value.observedAt, policy.value.maxPolicyAge)
    && Fresh(now, rail.value.observedAt, policy.value.maxRailAge)
    && rail.value.health == Healthy && 1 <= |collector| <= 200 && IndependentSources(price.value.sources)
  }

  /** A named policy with positive windows, one to ten thousand slots and no negative
      age. */
  predicate WellFormed(p: QuotePolicy) {
    && 1 <= |p.version| <= 100 && 0 < p.ttl && 0 < p.lateWindow && 0 < p.slots <= 10_000
    && 0 <= p.maxPriceAge && 0 <= p.maxPolicyAge && 0 <= p.maxRailAge
  }

  predicate Fresh(now: Instant, observedAt: Instant, maxAge: int) {
    0 <= now - observedAt <= Nanos(maxAge)
  }

  /** A deadline past the end of the calendar is the only thing between a valid
      age and plain freshness. */
  lemma AgeIsFreshness(now: Instant, observedAt: Instant, maxAge: int)
    requires OnCalendar(now) && OnCalendar(observedAt)
    ensures ValidAge(now, observedAt, maxAge) <==> Fresh(now, observedAt, maxAge) && OnCalendar(observedAt + Nanos(maxAge))
  {}

  /** A quote is issued exactly on sound evidence whose amount and deadlines can
      be represented, and then it asks for the least whole amount worth the fiat
      price, for `ttl` seconds, honouring late payments for `lateWindow` more. */
  lemma BuildIssues(fiatMinor: int, collector: string, price: Option<PriceSnapshot>, policy: Option<QuotePolicy>,
                    rail: Option<Rail>, now: Instant)
    requires fiatMinor < 0x1_0000_0000_0000_0000 && OnCalendar(now)
    requires price.Some? ==> OnCalendar(price.value.observedAt)
    requires policy.Some? ==> OnCalendar(policy.value.observedAt)
    requires rail.Some? ==> OnCalendar(rail.value.observedAt)
    ensures Build(fiatMinor, collector, price, policy, rail, now).Ok? <==>
            && Sound(collector, price, policy, rail, now)
            && OnCalendar(price.value.observedAt + Nanos(policy.value.maxPriceAge))
            && OnCalendar(policy.value.observedAt + Nanos(policy.value.maxPolicyAge))
            && OnCalendar(rail.value.observedAt + Nanos(policy.value.maxRailAge))
            && fiatMinor > 0 && fiatMinor * price.value.num < U256_LIMIT
            && OnCalendar(now + Nanos(policy.value.ttl + policy.value.lateWindow))
    ensures var r := Build(fiatMinor, collector, price, policy, rail, now);
            r.Ok? ==> && IsCeil(r.value.baseAmount, fiatMinor * price.value.num, price.value.den)
                      && r.value.num == price.value.num && r.value.den == price.value.den && r.value.createdAt == now
                      && now < r.value.expiresAt < r.value.lateUntil && r.value.expiresAt == now + Nanos(policy.value.ttl)
                      && r.value.lateUntil == now + Nanos(policy.value.ttl + policy.value.lateWindow)
  {
    if price.Some? && policy.Some? && rail.Some? {
      AgeIsFreshness(now, price.value.observedAt, policy.value.maxPriceAge);
      AgeIsFreshness(now, policy.value.observedAt, policy.value.maxPolicyAge);
      AgeIsFreshness(now, rail.value.observedAt, policy.value.maxRailAge);
      if fiatMinor >= 0 { MulDivCeilIsLeast(fiatMinor, price.value.num, price.value.den); }
      SignOfProduct(fiatMinor, price.value.num);
    }
  }

  /** Why a quote is refused; what is missing, invalid, stale, unhealthy, unaddressed
      or not independent is named in that order. */
  lemma BuildRefuses(fiatMinor: int, collector: string, price: Option<PriceSnapshot>, policy: Option<QuotePolicy>,
                     rail: Option<Rail>, now: Instant)
    requires fiatMinor < 0x1_0000_0000_0000_0000
    ensures var r := Build(fiatMinor, collector, price, policy, rail, now);
            && (r == Err(UnknownPrice) <==> price.None?)
            && (r == Err(UnknownPolicy) <==> price.Some? && policy.None?)
            && (r == Err(UnknownRailHealth) <==> price.Some? && policy.Some? && rail.None?)
            && (price.Some? && policy.Some? && rail.Some? && !WellFormed(policy.value) ==> r == Err(InvalidPolicy))
            && (price.Some? && policy.Some? && rail.Some? && WellFormed(policy.value) ==>
                  var q := policy.value;
                  var priced, ruled := InDate(now, price.value.observedAt, q.maxPriceAge), InDate(now, q.observedAt, q.maxPolicyAge);
                  var railed := InDate(now, rail.value.observedAt, q.maxRailAge);
                  var reachable := priced && ruled && railed && rail.value.health.Healthy?;
                  && (r == Err(StalePrice) <==> !priced)
                  && (r == Err(StalePolicy) <==> priced && !ruled)
                  && (r == Err(StaleRailHealth) <==> priced && ruled && !railed)
                  && (r == Err(UnhealthyRail) <==> priced && ruled && railed && !rail.value.health.Healthy?)
                  && (r == Err(InvalidCollectorAddress) <==> reachable && !(1 <= |collector| <= 200))
                  && (r == Err(InvalidPriceSources) <==> reachable && 1 <= |collector| <= 200 && !IndependentSources(price.value.sources))
                  && (reachable && 1 <= |collector| <= 200 && IndependentSources(price.value.sources) ==>
                        && (fiatMinor < 0 ==> r == Err(InvalidPolicy))
                        && (fiatMinor == 0 ==> r == Err(MoneyFault(AmountMustBePositive)))))
  {
    if price.Some? { MulDivCeilIsLeast(0, price.value.num, price.value.den); }
  }

  /** Not from the future and not beyond a deadline the calendar can name. */
  predicate InDate(now: Instant, observedAt: Instant, maxAge: int) {
    observedAt <= now <= observedAt + Nanos(maxAge) && OnCalendar(observedAt + Nanos(maxAge))
  }

  lemma SignOfProduct(m: int, n: Amount)
    ensures m > 0 <==> m * n > 0
    ensures m == 0 ==> m * n == 0
  {}

  /** The amount asked for at the aggregated rate lies between the amounts that
      the lowest and the highest used rate would have asked for. */
  lemma QuoteWithinReadings(rs: seq<Reading>, policy: Policy, now: Instant, fiatMinor: U64)
    requires Outcome(rs, policy, now).Ok? && Indices(rs, Outcome(rs, policy, now).value.used)
    requires |Outcome(rs, policy, now).value.used| <= 2 || Comparable(rs, Outcome(rs, policy, now).value.used)
    requires Outcome(rs, policy, now).value.used != []
    ensures var a := Outcome(rs, policy, now).value;
            var low, high := rs[a.used[0]], rs[a.used[|a.used| - 1]];
            var ask := MulDivCeil(fiatMinor, a.num, a.den);
            && (MulDivCeil(fiatMinor, low.num, low.den).Ok? && ask.Ok? ==>
                  MulDivCeil(fiatMinor, low.num, low.den).value <= ask.value)
            && (MulDivCeil(fiatMinor, high.num, high.den).Ok? && ask.Ok? ==>
                  ask.value <= MulDivCeil(fiatMinor, high.num, high.den).value)
  {
    var a := Outcome(rs, policy, now).value;
    AggregatePrices(rs, policy, now);
    var low, high := rs[a.used[0]], rs[a.used[|a.used| - 1]];
    if MulDivCeil(fiatMinor, a.num, a.den).Ok? {
      if MulDivCeil(fiatMinor, low.num, low.den).Ok? { MulDivCeilMonotone(fiatMinor, low.num, low.den, a.num, a.den); }
      if MulDivCeil(fiatMinor, high.num, high.den).Ok? { MulDivCeilMonotone(fiatMinor, a.num, a.den, high.num, high.den); }
    }
  }
}
