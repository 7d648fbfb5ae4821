/** Request budgets: a token bucket per key
    (crates/gateway-http/src/rate_limit.rs). Instants are nanoseconds. */
module RateLimit {
  import opened Common
  import opened Money

  const TOKEN: nat := 1_000_000
  const MAX_TRACKED_KEYS: nat := 100_000
  const NANOS_PER_MS: nat := 1_000_000
  const NANOS_PER_SECOND: nat := 1_000_000_000
  const NANOS_PER_MINUTE: nat := 60_000_000_000
  const U128_LIMIT: nat := 0x1_0000_0000_0000_0000_0000_0000_0000_0000
  const LONGEST_MS: nat := 0xFFFF_FFFF_FFFF_FFFF * 1000 + 999

  type Key = string

  datatype Bucket = Bucket(units: nat, at: nat)

  type Buckets = map<Key, Bucket>

  function Capacity(limit: U32): nat { limit * TOKEN }

  /** Whole milliseconds since, or none if the clock reading is earlier. */
  function ElapsedMs(since: nat, now: nat): nat {
    if now < since then 0 else (now - since) / NANOS_PER_MS
  }

  function Gain(limit: U32, ms: nat): nat { ms * limit * TOKEN / 60_000 }

  function Refilled(limit: U32, b: Bucket, now: nat): nat {
    Min(b.units + Gain(limit, ElapsedMs(b.at, now)), Capacity(limit))
  }

  function CeilDiv(a: nat, b: nat): nat
    requires b > 0
  {
    if a % b == 0 then a / b else a / b + 1
  }

  function WaitSeconds(limit: U32, units: nat): nat
    requires limit > 0
  {
    Max(CeilDiv((if units < TOKEN then TOKEN - units else 0) * 60, Capacity(limit)), 1)
  }

  datatype Answer = Granted | Refused(waitSeconds: nat)

  /** Buckets that are full again say nothing a missing bucket would not. */
  function Retain(limit: U32, buckets: Buckets, now: nat): Buckets {
    map key | key in buckets && Refilled(limit, buckets[key], now) < Capacity(limit) :: buckets[key]
  }

  /** Taking from a known bucket. */
  function Draw(limit: U32, b: Bucket, now: nat): (Bucket, Answer)
    requires limit > 0
  {
    var available := Refilled(limit, b, now);
    if available >= TOKEN then (Bucket(available - TOKEN, now), Granted)
    else (Bucket(available, now), Refused(WaitSeconds(limit, available)))
  }

  function Take(limit: U32, buckets: Buckets, key: Key, now: nat): (Buckets, Answer) {
    if limit == 0 then (buckets, Granted)
    else
      var kept := if |buckets| >= MAX_TRACKED_KEYS && key !in buckets then Retain(limit, buckets, now) else buckets;
      var b := if key in kept then kept[key] else Bucket(Capacity(limit), now);
      var drawn := Draw(limit, b, now);
      (kept[key := drawn.0], drawn.1)
  }

  /** The same without ever forgetting a key. */
  function TakeForever(limit: U32, buckets: Buckets, key: Key, now: nat): (Buckets, Answer) {
    if limit == 0 then (buckets, Granted)
    else
      var b := if key in buckets then buckets[key] else Bucket(Capacity(limit), now);
      var drawn := Draw(limit, b, now);
      (buckets[key := drawn.0], drawn.1)
  }

  function HasToken(limit: U32, buckets: Buckets, key: Key, now: nat): Answer {
    if limit == 0 || key !in buckets then Granted
    else
      var available := Refilled(limit, buckets[key], now);
      if available >= TOKEN then Granted else Refused(WaitSeconds(limit, available))
  }

  /** What a take remembers: below a hundred thousand keys, or for a key it knows,
      everything; otherwise exactly the buckets that are not full again. The key
      itself is always remembered, with the instant of the take. */
  lemma TakeRemembers(limit: U32, buckets: Buckets, key: Key, now: nat)
    requires limit > 0
    ensures var after := Take(limit, buckets, key, now).0;
            && key in after && after[key].at == now
            && (forall k :: k != key ==>
                  (k in after <==> && k in buckets
                                   && (|buckets| < 100_000 || key in buckets || Refilled(limit, buckets[k], now) < limit * 1_000_000)))
            && (forall k :: k != key && k in after ==> after[k] == buckets[k])
  {}

  // ----- arithmetic -----

  lemma DivMonotone(a: nat, b: nat, d: nat)
    requires a <= b && d > 0
    ensures a / d <= b / d
  {
    if b / d < a / d {
      MulLe(b / d + 1, a / d, d);
    }
  }

  lemma GainGrows(limit: U32, a: nat, b: nat)
    requires a <= b
    ensures Gain(limit, a) <= Gain(limit, b)
  {
    MulLe(a, b, limit);
    MulLe(a * limit, b * limit, TOKEN);
    DivMonotone(a * limit * TOKEN, b * limit * TOKEN, 60_000);
  }

  lemma RefilledGrows(limit: U32, b: Bucket, now: nat, later: nat)
    requires now <= later
    ensures Refilled(limit, b, now) <= Refilled(limit, b, later)
  {
    if now >= b.at { DivMonotone(now - b.at, later - b.at, NANOS_PER_MS); }
    GainGrows(limit, ElapsedMs(b.at, now), ElapsedMs(b.at, later));
  }

  /** No product comes near 128 bits, for any representable duration and limit:
      the saturating operations never saturate and the plain ones never wrap. */
  lemma NoOverflow(limit: U32, ms: nat, units: nat)
    requires ms <= LONGEST_MS && units <= Capacity(limit)
    ensures ms * limit < U128_LIMIT && ms * limit * TOKEN < U128_LIMIT
    ensures units + Gain(limit, ms) < U128_LIMIT && TOKEN * 60 < U128_LIMIT && Capacity(limit) < U128_LIMIT
  {
    MulLe(ms, LONGEST_MS, limit);
    MulLe(limit, U32_MAX, LONGEST_MS);
    assert LONGEST_MS * U32_MAX * TOKEN < U128_LIMIT - U32_MAX * TOKEN;
    assert ms * limit <= LONGEST_MS * U32_MAX;
    MulLe(ms * limit, LONGEST_MS * U32_MAX, TOKEN);
    assert Gain(limit, ms) <= ms * limit * TOKEN;
  }

  // ----- forgetting a full bucket is unobservable -----

  /** `kept` lacks only keys whose full history would say: full. */
  ghost predicate Forgets(limit: U32, kept: Buckets, all: Buckets, now: nat) {
    && (forall key :: key in kept ==> key in all && all[key] == kept[key])
    && (forall key :: key in all && key !in kept ==> Refilled(limit, all[key], now) == Capacity(limit))
  }

  lemma ForgetsLater(limit: U32, kept: Buckets, all: Buckets, now: nat, later: nat)
    requires Forgets(limit, kept, all, now) && now <= later
    ensures Forgets(limit, kept, all, later)
  {
    forall key | key in all && key !in kept ensures Refilled(limit, all[key], later) == Capacity(limit) {
      RefilledGrows(limit, all[key], now, later);
    }
  }

  datatype Call = Call(key: Key, now: nat, peek: bool)

  function Step(limit: U32, buckets: Buckets, c: Call): (Buckets, Answer) {
    if c.peek then (buckets, HasToken(limit, buckets, c.key, c.now)) else Take(limit, buckets, c.key, c.now)
  }

  function Answers(limit: U32, buckets: Buckets, calls: seq<Call>): seq<Answer>
    decreases |calls|
  {
    if calls == [] then []
    else var step := Step(limit, buckets, calls[0]); [step.1] + Answers(limit, step.0, calls[1..])
  }

  function AnswersForever(limit: U32, buckets: Buckets, calls: seq<Call>): seq<Answer>
    decreases |calls|
  {
    if calls == [] then []
    else if calls[0].peek then
      [HasToken(limit, buckets, calls[0].key, calls[0].now)] + AnswersForever(limit, buckets, calls[1..])
    else
      var step := TakeForever(limit, buckets, calls[0].key, calls[0].now);
      [step.1] + AnswersForever(limit, step.0, calls[1..])
  }

  predicate InOrder(calls: seq<Call>, start: nat) {
    && (forall i :: 0 <= i < |calls| ==> start <= calls[i].now)
    && (forall i, j :: 0 <= i < j < |calls| ==> calls[i].now <= calls[j].now)
  }

  predicate EndsBy(calls: seq<Call>, end: nat) {
    forall i :: 0 <= i < |calls| ==> calls[i].now <= end
  }

  lemma InOrderTail(calls: seq<Call>, start: nat, end: nat)
    requires InOrder(calls, start) && EndsBy(calls, end) && calls != []
    ensures start <= calls[0].now <= end && InOrder(calls[1..], calls[0].now) && EndsBy(calls[1..], end)
  {
    assert forall i :: 0 <= i < |calls[1..]| ==> calls[1..][i] == calls[i + 1];
  }

  /** For calls in order of time, by any keys: dropping full buckets never changes
      an answer. */
  lemma {:induction false} EvictionIsUnobservable(limit: U32, kept: Buckets, all: Buckets, calls: seq<Call>, start: nat)
    requires Forgets(limit, kept, all, start) && InOrder(calls, start)
    ensures Answers(limit, kept, calls) == AnswersForever(limit, all, calls)
    decreases |calls|
  {
    if calls != [] {
      var c := calls[0];
      ForgetsLater(limit, kept, all, start, c.now);
      if c.peek {
        EvictionIsUnobservable(limit, kept, all, calls[1..], c.now);
      } else {
        EvictionIsUnobservable(limit, Take(limit, kept, c.key, c.now).0, TakeForever(limit, all, c.key, c.now).0, calls[1..], c.now);
      }
    }
  }

  // ----- the wait in a refusal -----

  lemma CeilDivLeast(a: nat, b: nat, s: nat)
    requires b > 0
    ensures s >= CeilDiv(a, b) <==> s * b >= a
  {
    var q := a / b;
    assert a == q * b + a % b;
    if s <= q { MulLe(s, q, b); } else { MulLe(q + 1, s, b); assert (q + 1) * b == q * b + b; }
    if s < q { MulLe(s + 1, q, b); assert (s + 1) * b == s * b + b; }
  }

  lemma FloorReaches(x: nat, d: nat, m: nat)
    requires d > 0
    ensures x / d >= m <==> x >= m * d
  {
    var q := x / d;
    assert x == q * d + x % d;
    if m <= q { MulLe(m, q, d); } else { MulLe(q + 1, m, d); assert (q + 1) * d == q * d + d; }
  }

  /** In `s` whole seconds a quiet bucket gains a sixtieth of the limit each. */
  lemma SecondsGain(limit: U32, s: nat)
    ensures Gain(limit, s * 1000) == s * Capacity(limit) / 60
  {
    assert s * 1000 * limit * TOKEN == s * Capacity(limit) * 1000;
    Cancel(s * Capacity(limit), 60, 1000);
  }

  lemma Cancel(x: nat, d: nat, k: nat)
    requires d > 0 && k > 0
    ensures x * k / (d * k) == x / d
  {
    var q, r := x / d, x % d;
    assert x * k == q * (d * k) + r * k;
    assert r * k < d * k;
    Quotient(x * k, d * k, q, r * k);
  }

  lemma Quotient(x: nat, d: nat, q: nat, r: nat)
    requires x == q * d + r && r < d
    ensures x / d == q
  {
    FloorReaches(x, d, q);
    FloorReaches(x, d, q + 1);
    assert (q + 1) * d == q * d + d;
  }

  lemma SecondsLater(now: nat, s: nat)
    ensures ElapsedMs(now, now + s * NANOS_PER_SECOND) == s * 1000
  {
    Cancel(s * 1000, 1, NANOS_PER_MS);
    assert s * NANOS_PER_SECOND == s * 1000 * NANOS_PER_MS;
  }

  lemma EnoughAfter(limit: U32, units: nat, gain: nat)
    requires limit > 0
    ensures Min(units + gain, Capacity(limit)) >= TOKEN <==> units + gain >= TOKEN
  {
    MulLe(1, limit, TOKEN);
  }

  lemma DrawWaitIsLeast(limit: U32, b: Bucket, now: nat, s: nat)
    requires limit > 0 && Draw(limit, b, now).1.Refused?
    ensures var refused := Draw(limit, b, now);
            Draw(limit, refused.0, now + s * NANOS_PER_SECOND).1.Granted? <==> s >= refused.1.waitSeconds
  {
    var units := Refilled(limit, b, now);
    SecondsLater(now, s);
    SecondsGain(limit, s);
    EnoughAfter(limit, units, s * Capacity(limit) / 60);
    FloorReaches(s * Capacity(limit), 60, TOKEN - units);
    MulLe(1, limit, TOKEN);
    CeilDivLeast((TOKEN - units) * 60, Capacity(limit), s);
    CeilDivLeast((TOKEN - units) * 60, Capacity(limit), 0);
  }

  /** The bucket of `key` is `b`, or was forgotten once it would be full again. */
  ghost predicate Quiet(limit: U32, buckets: Buckets, key: Key, b: Bucket, now: nat) {
    if key in buckets then buckets[key] == b else Refilled(limit, b, now) == Capacity(limit)
  }

  lemma StepKeepsQuiet(limit: U32, buckets: Buckets, key: Key, b: Bucket, now: nat, c: Call)
    requires Quiet(limit, buckets, key, b, now) && now <= c.now && (c.peek || c.key != key)
    ensures Quiet(limit, Step(limit, buckets, c).0, key, b, c.now)
  {
    RefilledGrows(limit, b, now, c.now);
    assert Refilled(limit, b, c.now) <= Capacity(limit);
  }

  /** The buckets after a sequence of calls. */
  function After(limit: U32, buckets: Buckets, calls: seq<Call>): Buckets
    decreases |calls|
  {
    if calls == [] then buckets else After(limit, Step(limit, buckets, calls[0]).0, calls[1..])
  }

  /** Nobody takes from `key`; looks at it are allowed. */
  predicate Spares(calls: seq<Call>, key: Key) {
    forall i :: 0 <= i < |calls| ==> calls[i].peek || calls[i].key != key
  }

  lemma {:induction false} RunKeepsQuiet(limit: U32, buckets: Buckets, key: Key, b: Bucket, now: nat, calls: seq<Call>, end: nat)
    requires Quiet(limit, buckets, key, b, now) && InOrder(calls, now) && EndsBy(calls, end) && Spares(calls, key) && now <= end
    ensures Quiet(limit, After(limit, buckets, calls), key, b, end)
    decreases |calls|
  {
    if calls == [] {
      RefilledGrows(limit, b, now, end);
    } else {
      assert calls[0].peek || calls[0].key != key;
      InOrderTail(calls, now, end);
      StepKeepsQuiet(limit, buckets, key, b, now, calls[0]);
      RunKeepsQuiet(limit, Step(limit, buckets, calls[0]).0, key, b, calls[0].now, calls[1..], end);
    }
  }

  /** A take on a quiet key is answered as its bucket would answer. */
  lemma QuietTake(limit: U32, buckets: Buckets, key: Key, b: Bucket, now: nat)
    requires limit > 0 && Quiet(limit, buckets, key, b, now)
    ensures Take(limit, buckets, key, now).1.Granted? <==> Draw(limit, b, now).1.Granted?
  {
    MulLe(1, limit, TOKEN);
  }

  /** After a refused take and `s` whole seconds in which nobody takes from the key,
      whatever other keys do and whichever buckets are evicted, the next take is
      granted if and only if `s` is at least the wait that was named. */
  lemma WaitIsLeast(limit: U32, buckets: Buckets, key: Key, now: nat, calls: seq<Call>, s: nat)
    requires Take(limit, buckets, key, now).1.Refused?
    requires InOrder(calls, now) && EndsBy(calls, now + s * NANOS_PER_SECOND) && Spares(calls, key)
    ensures var refused := Take(limit, buckets, key, now);
            Take(limit, After(limit, refused.0, calls), key, now + s * NANOS_PER_SECOND).1.Granted?
            <==> s >= refused.1.waitSeconds
  {
    var kept := if |buckets| >= MAX_TRACKED_KEYS && key !in buckets then Retain(limit, buckets, now) else buckets;
    var b := if key in kept then kept[key] else Bucket(Capacity(limit), now);
    var refused, later := Take(limit, buckets, key, now), now + s * NANOS_PER_SECOND;
    var left := Draw(limit, b, now).0;
    RunKeepsQuiet(limit, refused.0, key, left, now, calls, later);
    QuietTake(limit, After(limit, refused.0, calls), key, left, later);
    DrawWaitIsLeast(limit, b, now, s);
  }

  /** What a bucket really gained by `later`, from what it had at `now`: floors of
      parts lose at most one unit. */
  lemma GainAdds(limit: U32, a: nat, b: nat)
    ensures Gain(limit, a) + Gain(limit, b) <= Gain(limit, a + b) <= Gain(limit, a) + Gain(limit, b) + 1
  {
    var x, y := a * limit * TOKEN, b * limit * TOKEN;
    assert (a + b) * limit * TOKEN == x + y;
    assert x == (x / 60_000) * 60_000 + x % 60_000 && y == (y / 60_000) * 60_000 + y % 60_000;
    FloorReaches(x + y, 60_000, x / 60_000 + y / 60_000);
    FloorReaches(x + y, 60_000, x / 60_000 + y / 60_000 + 2);
  }

  lemma ElapsedAdds(since: nat, now: nat, s: nat)
    requires since <= now
    ensures ElapsedMs(since, now + s * NANOS_PER_SECOND) == ElapsedMs(since, now) + s * 1000
  {
    var x := now - since;
    assert x == (x / NANOS_PER_MS) * NANOS_PER_MS + x % NANOS_PER_MS;
    assert s * NANOS_PER_SECOND == s * 1000 * NANOS_PER_MS;
    Quotient(x + s * NANOS_PER_SECOND, NANOS_PER_MS, x / NANOS_PER_MS + s * 1000, x % NANOS_PER_MS);
  }

  /** A refused look at a bucket does not restart its clock, so its wait is enough
      but may be a second too long. */
  lemma PeekWaitSuffices(limit: U32, b: Bucket, now: nat, s: nat)
    requires limit > 0 && b.at <= now && Refilled(limit, b, now) < TOKEN
    ensures s >= WaitSeconds(limit, Refilled(limit, b, now)) ==> Refilled(limit, b, now + s * NANOS_PER_SECOND) >= TOKEN
    ensures s + 1 < WaitSeconds(limit, Refilled(limit, b, now)) ==> Refilled(limit, b, now + s * NANOS_PER_SECOND) < TOKEN
  {
    var ms := ElapsedMs(b.at, now);
    var units := Refilled(limit, b, now);
    MulLe(1, limit, TOKEN);
    assert units == b.units + Gain(limit, ms);
    ElapsedAdds(b.at, now, s);
    GainAdds(limit, ms, s * 1000);
    SecondsGain(limit, s);
    EnoughAfter(limit, b.units, Gain(limit, ms + s * 1000));
    FloorReaches(s * Capacity(limit), 60, TOKEN - units);
    FloorReaches(s * Capacity(limit), 60, TOKEN - units - 1);
    CeilDivLeast((TOKEN - units) * 60, Capacity(limit), s);
    CeilDivLeast((TOKEN - units) * 60, Capacity(limit), s + 1);
    assert (s + 1) * Capacity(limit) == s * Capacity(limit) + Capacity(limit);
  }

  /** What a bucket has earned beyond whole units, in sixty-thousandths of one. */
  function Fraction(limit: U32, b: Bucket, now: nat): nat { ElapsedMs(b.at, now) * limit * TOKEN % 60_000 }

  /** After a refused look and `s` quiet seconds there is a token if and only if
      the fraction already earned and the gain of the wait cover what was missing. */
  lemma PeekGrantsExactly(limit: U32, b: Bucket, now: nat, s: nat)
    requires limit > 0 && b.at <= now && Refilled(limit, b, now) < TOKEN
    ensures Refilled(limit, b, now + s * NANOS_PER_SECOND) >= TOKEN
            <==> Fraction(limit, b, now) + s * Capacity(limit) * 1000 >= (TOKEN - Refilled(limit, b, now)) * 60_000
  {
    var ms := ElapsedMs(b.at, now);
    MulLe(1, limit, TOKEN);
    ElapsedAdds(b.at, now, s);
    EnoughAfter(limit, b.units, Gain(limit, ms + s * 1000));
    SplitGain(limit, ms, s);
    FloorReaches((ms + s * 1000) * limit * TOKEN, 60_000, TOKEN - b.units);
  }

  lemma SplitGain(limit: U32, ms: nat, s: nat)
    ensures (ms + s * 1000) * limit * TOKEN
            == Gain(limit, ms) * 60_000 + ms * limit * TOKEN % 60_000 + s * Capacity(limit) * 1000
  {
    assert (ms + s * 1000) * limit * TOKEN == ms * limit * TOKEN + s * Capacity(limit) * 1000;
  }

  /** So a look's wait always suffices, and it is the least if and only if the
      fraction is not worth its last second. */
  lemma PeekWaitExactly(limit: U32, b: Bucket, now: nat)
    requires limit > 0 && b.at <= now && Refilled(limit, b, now) < TOKEN
    ensures var units := Refilled(limit, b, now);
            var wait := WaitSeconds(limit, units);
            (forall s: nat :: Refilled(limit, b, now + s * NANOS_PER_SECOND) >= TOKEN <==> s >= wait)
            <==> Fraction(limit, b, now) + (wait - 1) * Capacity(limit) * 1000 < (TOKEN - units) * 60_000
  {
    var wait := WaitSeconds(limit, Refilled(limit, b, now));
    PeekGrantsExactly(limit, b, now, wait - 1);
    forall s: nat
      ensures s >= wait ==> Refilled(limit, b, now + s * NANOS_PER_SECOND) >= TOKEN
      ensures s + 1 < wait ==> Refilled(limit, b, now + s * NANOS_PER_SECOND) < TOKEN
    {
      PeekWaitSuffices(limit, b, now, s);
    }
  }

  /** One that is a second too long: with one token a minute, one millisecond
      after a bucket stood 16 683 units short. */
  lemma PeekWaitMayBeLong()
    ensures var b := Bucket(983_317, 0);
            && WaitSeconds(1, Refilled(1, b, NANOS_PER_MS)) == 2
            && Refilled(1, b, NANOS_PER_MS + NANOS_PER_SECOND) >= TOKEN
  {
    assert ElapsedMs(0, NANOS_PER_MS) == 1 && ElapsedMs(0, NANOS_PER_MS + NANOS_PER_SECOND) == 1001;
    assert Gain(1, 1) == 16 && Gain(1, 1001) == 16_683;
  }

  // ----- how much a window can grant -----

  /** The exact level, scaled by the nanoseconds of a minute. */
  function Level(limit: U32, buckets: Buckets, key: Key, now: nat): nat {
    if key !in buckets then Capacity(limit) * NANOS_PER_MINUTE
    else
      var b := buckets[key];
      Min(b.units * NANOS_PER_MINUTE + Earned(limit, if now < b.at then 0 else now - b.at), Capacity(limit) * NANOS_PER_MINUTE)
  }

  /** What a key earns in some nanoseconds, on that scale. */
  function Earned(limit: U32, nanos: nat): nat { Product(Capacity(limit), nanos) }

  lemma EarnedAdds(limit: U32, a: nat, b: nat)
    ensures Earned(limit, a + b) == Earned(limit, a) + Earned(limit, b)
  {
    ProductIs(Capacity(limit), a);
    ProductIs(Capacity(limit), b);
    ProductIs(Capacity(limit), a + b);
    Distribute(a, b, Capacity(limit));
  }

  /** A refill never exceeds the exact level. */
  lemma RefillWithinLevel(limit: U32, buckets: Buckets, key: Key, now: nat)
    requires key in buckets
    ensures Refilled(limit, buckets[key], now) * NANOS_PER_MINUTE <= Level(limit, buckets, key, now)
  {
    var b := buckets[key];
    var ms := ElapsedMs(b.at, now);
    var elapsed := if now < b.at then 0 else now - b.at;
    assert ms * NANOS_PER_MS <= elapsed;
    MulLe(ms * NANOS_PER_MS, elapsed, Capacity(limit));
    assert Gain(limit, ms) * 60_000 <= ms * limit * TOKEN;
    assert ms * limit * TOKEN == ms * Capacity(limit);
    GainScaled(Gain(limit, ms), ms, Capacity(limit), elapsed);
    ProductIs(Capacity(limit), elapsed);
    MulLe(Refilled(limit, b, now), b.units + Gain(limit, ms), NANOS_PER_MINUTE);
    MulLe(Refilled(limit, b, now), Capacity(limit), NANOS_PER_MINUTE);
  }

  lemma GainScaled(gain: nat, ms: nat, capacity: nat, elapsed: nat)
    requires gain * 60_000 <= ms * capacity && ms * NANOS_PER_MS * capacity <= elapsed * capacity
    ensures gain * NANOS_PER_MINUTE <= elapsed * capacity
  {
    assert gain * NANOS_PER_MINUTE == gain * 60_000 * NANOS_PER_MS;
    MulLe(gain * 60_000, ms * capacity, NANOS_PER_MS);
    assert ms * capacity * NANOS_PER_MS == ms * NANOS_PER_MS * capacity;
  }

  /** The level rises by no more than the limit's share of the time. */
  lemma LevelRises(limit: U32, buckets: Buckets, key: Key, now: nat, later: nat)
    requires now <= later
    ensures Level(limit, buckets, key, later) <= Level(limit, buckets, key, now) + Earned(limit, later - now)
  {
    if key in buckets {
      var at := buckets[key].at;
      if now >= at {
        EarnedAdds(limit, now - at, later - now);
      } else if later >= at {
        EarnedAdds(limit, later - at, at - now);
      }
    }
  }

  lemma Distribute(a: nat, b: nat, c: nat)
    ensures (a + b) * c == a * c + b * c
  {}

  /** Whether the call is a granted take of the key, as a number. */
  function Paid(limit: U32, buckets: Buckets, c: Call, key: Key): nat {
    if !c.peek && c.key == key && Step(limit, buckets, c).1.Granted? then 1 else 0
  }

  /** A take of another key, or a look, leaves the key's level alone; one of the
      key itself pays a token's worth for a grant and nothing for a refusal. */
  lemma StepPays(limit: U32, buckets: Buckets, key: Key, c: Call)
    requires limit > 0
    ensures var step := Step(limit, buckets, c);
            Level(limit, step.0, key, c.now) + Paid(limit, buckets, c, key) * (TOKEN * NANOS_PER_MINUTE)
            <= Level(limit, buckets, key, c.now)
  {
    if !c.peek {
      var kept := if |buckets| >= MAX_TRACKED_KEYS && c.key !in buckets then Retain(limit, buckets, c.now) else buckets;
      KeepsLevel(limit, buckets, key, c.now);
      assert Level(limit, kept, key, c.now) == Level(limit, buckets, key, c.now);
      DrawPays(limit, kept, c.key, c.now);
    }
  }

  lemma KeepsLevel(limit: U32, buckets: Buckets, key: Key, now: nat)
    ensures Level(limit, Retain(limit, buckets, now), key, now) == Level(limit, buckets, key, now)
  {
    if key in buckets && key !in Retain(limit, buckets, now) {
      RefillWithinLevel(limit, buckets, key, now);
      MulLe(Capacity(limit), Refilled(limit, buckets[key], now), NANOS_PER_MINUTE);
    }
  }

  lemma DrawPays(limit: U32, kept: Buckets, key: Key, now: nat)
    requires limit > 0
    ensures var drawn := Draw(limit, if key in kept then kept[key] else Bucket(Capacity(limit), now), now);
            Level(limit, kept[key := drawn.0], key, now) + (if drawn.1.Granted? then TOKEN * NANOS_PER_MINUTE else 0)
            <= Level(limit, kept, key, now)
  {
    var b := if key in kept then kept[key] else Bucket(Capacity(limit), now);
    RefillWithinLevel(limit, kept[key := b], key, now);
    var available := Refilled(limit, b, now);
    assert Draw(limit, b, now).0.units * NANOS_PER_MINUTE
           == available * NANOS_PER_MINUTE - (if available >= TOKEN then TOKEN * NANOS_PER_MINUTE else 0);
  }

  /** Grants of one key among calls of any. */
  function Grants(limit: U32, buckets: Buckets, calls: seq<Call>, key: Key): nat
    decreases |calls|
  {
    if calls == [] then 0
    else Paid(limit, buckets, calls[0], key) + Grants(limit, Step(limit, buckets, calls[0]).0, calls[1..], key)
  }

  /** The first call of a run: what it leaves, with the time before it and the token
      it may have paid, and the grants after it. */
  lemma FirstPays(limit: U32, buckets: Buckets, calls: seq<Call>, key: Key, start: nat) returns (after: Buckets, paid: nat)
    requires limit > 0 && calls != [] && start <= calls[0].now
    ensures Level(limit, after, key, calls[0].now) + paid * (TOKEN * NANOS_PER_MINUTE)
            <= Level(limit, buckets, key, start) + Earned(limit, calls[0].now - start)
    ensures Grants(limit, buckets, calls, key) == paid + Grants(limit, after, calls[1..], key)
  {
    after, paid := Step(limit, buckets, calls[0]).0, Paid(limit, buckets, calls[0], key);
    LevelRises(limit, buckets, key, start, calls[0].now);
    StepPays(limit, buckets, key, calls[0]);
  }

  /** In numbers only. */
  lemma PaymentsAdd(paid: nat, rest: nat, unit: nat, before: nat, after: nat, waited: nat, left: nat)
    requires after + paid * unit <= before + waited && rest * unit <= after + left
    ensures (paid + rest) * unit <= before + waited + left
  {
    Distribute(paid, rest, unit);
  }

  /** So far `g` tokens' worth was paid out of `level` and what `nanos` earned. */
  predicate Affordable(limit: U32, g: nat, level: nat, nanos: nat) {
    Product(TOKEN * NANOS_PER_MINUTE, g) <= level + Earned(limit, nanos)
  }

  lemma AffordableAdds(limit: U32, paid: nat, rest: nat, before: nat, after: nat, waited: nat, left: nat)
    requires after + paid * (TOKEN * NANOS_PER_MINUTE) <= before + Earned(limit, waited) && Affordable(limit, rest, after, left)
    ensures Affordable(limit, paid + rest, before, waited + left)
  {
    ProductIs(TOKEN * NANOS_PER_MINUTE, rest);
    ProductIs(TOKEN * NANOS_PER_MINUTE, paid + rest);
    EarnedAdds(limit, waited, left);
    PaymentsAdd(paid, rest, TOKEN * NANOS_PER_MINUTE, before, after, Earned(limit, waited), Earned(limit, left));
  }

  /** `g` grants were paid for, in terms of numbers the run gives one by one. */
  lemma {:induction false} GrantsArePaid(limit: U32, buckets: Buckets, calls: seq<Call>, key: Key,
                                         start: nat, end: nat) returns (g: nat, level: nat)
    requires limit > 0 && InOrder(calls, start) && EndsBy(calls, end) && start <= end
    ensures g == Grants(limit, buckets, calls, key) && level == Level(limit, buckets, key, start)
    ensures Affordable(limit, g, level, end - start)
    decreases |calls|
  {
    level := Level(limit, buckets, key, start);
    if calls == [] {
      g := 0;
    } else {
      var now := calls[0].now;
      InOrderTail(calls, start, end);
      var after, paid := FirstPays(limit, buckets, calls, key, start);
      var rest, left := GrantsArePaid(limit, after, calls[1..], key, now, end);
      g := paid + rest;
      AffordableAdds(limit, paid, rest, level, left, now - start, end - now);
    }
  }

  /** Whatever the buckets held, a window of `ms` milliseconds grants a key at most
      the limit plus the limit's share of the window. */
  lemma WindowBound(limit: U32, buckets: Buckets, calls: seq<Call>, key: Key, start: nat, ms: nat)
    requires limit > 0 && InOrder(calls, start)
    requires EndsBy(calls, start + ms * NANOS_PER_MS)
    ensures Grants(limit, buckets, calls, key) <= limit + limit * ms / 60_000
  {
    var g, end := Grants(limit, buckets, calls, key), start + ms * NANOS_PER_MS;
    var _, _ := GrantsArePaid(limit, buckets, calls, key, start, end);
    assert Level(limit, buckets, key, start) <= Capacity(limit) * NANOS_PER_MINUTE;
    ProductIs(Capacity(limit), ms * NANOS_PER_MS);
    ProductIs(TOKEN * NANOS_PER_MINUTE, g);
    WindowArithmetic(g, limit, ms);
  }

  lemma WindowArithmetic(g: nat, limit: nat, ms: nat)
    requires g * (TOKEN * NANOS_PER_MINUTE) <= limit * TOKEN * NANOS_PER_MINUTE + ms * NANOS_PER_MS * (limit * TOKEN)
    ensures g <= limit + limit * ms / 60_000
  {
    var unit := TOKEN * NANOS_PER_MS;
    assert g * (TOKEN * NANOS_PER_MINUTE) == g * 60_000 * unit;
    assert limit * TOKEN * NANOS_PER_MINUTE == limit * 60_000 * unit;
    assert ms * NANOS_PER_MS * (limit * TOKEN) == limit * ms * unit;
    if g > limit {
      var extra := g - limit;
      assert extra * 60_000 * unit <= limit * ms * unit;
      assert extra * 60_000 <= limit * ms;
      FloorReaches(limit * ms, 60_000, extra);
    }
  }

  // ----- the budget itself -----

  class Budget {
    const limit: U32
    var buckets: Buckets

    constructor PerMinute(limit: U32)
      ensures this.limit == limit && buckets == map[]
    {
      this.limit, buckets := limit, map[];
    }

    /** `take`: forget full buckets when there are too many, then draw. */
    method TakeToken(key: Key, now: nat) returns (answer: Answer)
      modifies this
      ensures (buckets, answer) == Take(limit, old(buckets), key, now)
    {
      if limit == 0 {
        return Granted;
      }
      if |buckets| >= MAX_TRACKED_KEYS && key !in buckets {
        EvictFull(now);
      }
      ghost var kept := buckets;
      if key !in buckets {
        buckets := buckets[key := Bucket(Capacity(limit), now)];
      }
      var available := Refilled(limit, buckets[key], now);
      if available >= TOKEN {
        buckets := buckets[key := Bucket(available - TOKEN, now)];
        assert buckets == kept[key := Bucket(available - TOKEN, now)];
        return Granted;
      }
      buckets := buckets[key := Bucket(available, now)];
      assert buckets == kept[key := Bucket(available, now)];
      return Refused(WaitSeconds(limit, available));
    }

    /** `retain`, entry by entry. */
    method EvictFull(now: nat)
      modifies this
      ensures buckets == Retain(limit, old(buckets), now)
    {
      var todo := buckets.Keys;
      while todo != {}
        invariant buckets.Keys <= old(buckets).Keys && todo <= buckets.Keys
        invariant forall key :: key in buckets ==> buckets[key] == old(buckets)[key]
        invariant forall key :: key in old(buckets) && key !in todo ==>
                    (key in buckets <==> Refilled(limit, old(buckets)[key], now) < Capacity(limit))
        decreases |todo|
      {
        var key :| key in todo;
        if Refilled(limit, buckets[key], now) >= Capacity(limit) {
          buckets := buckets - {key};
        }
        todo := todo - {key};
      }
    }

    method HasTokenNow(key: Key, now: nat) returns (answer: Answer)
      ensures answer == HasToken(limit, buckets, key, now)
    {
      if limit == 0 || key !in buckets {
        return Granted;
      }
      var available := Refilled(limit, buckets[key], now);
      if available >= TOKEN {
        return Granted;
      }
      return Refused(WaitSeconds(limit, available));
    }
  }
}
