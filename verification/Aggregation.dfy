/** One reading per provider group: the selection loops of `aggregate`
    (crates/gateway-domain/src/price.rs) and the whole operation around them. */
module Aggregation {
  import opened Common
  import opened Money
  import opened Price
  import Ratios

  function Range(n: nat): (r: seq<nat>)
    ensures |r| == n && forall i :: 0 <= i < n ==> r[i] == i
  {
    seq(n, i => i)
  }

  function Firsts(d: seq<(nat, DiscardReason)>): (r: seq<nat>)
    ensures |r| == |d| && forall i :: 0 <= i < |d| ==> r[i] == d[i].0
  {
    seq(|d|, i requires 0 <= i < |d| => d[i].0)
  }

  /** `i` speaks for its group among the readings listed in `s`: nothing of the
      group is newer, and of equally new ones it was submitted first. */
  predicate LeadsGroup(rs: seq<Reading>, s: seq<nat>, i: nat)
    requires Indices(rs, s)
  {
    && i in s
    && forall k :: 0 <= k < |s| && rs[s[k]].group == rs[i].group ==>
         rs[s[k]].observedAt < rs[i].observedAt || (rs[s[k]].observedAt == rs[i].observedAt && i <= s[k])
  }

  predicate DistinctGroups(rs: seq<Reading>, s: seq<nat>)
    requires Indices(rs, s)
  {
    forall a, b :: 0 <= a < b < |s| ==> rs[s[a]].group != rs[s[b]].group
  }

  predicate HasSlot(rs: seq<Reading>, kept: seq<nat>, group: string)
    requires Indices(rs, kept)
  {
    exists a :: 0 <= a < |kept| && rs[kept[a]].group == group
  }

  predicate AllLead(rs: seq<Reading>, s: seq<nat>, kept: seq<nat>)
    requires Indices(rs, s) && Indices(rs, kept)
  {
    forall a :: 0 <= a < |kept| ==> LeadsGroup(rs, s, kept[a])
  }

  predicate AllHaveSlots(rs: seq<Reading>, s: seq<nat>, kept: seq<nat>)
    requires Indices(rs, s) && Indices(rs, kept)
  {
    forall k :: 0 <= k < |s| ==> HasSlot(rs, kept, rs[s[k]].group)
  }

  /** `kept` holds exactly one reading per group of `s`, each leading its group. */
  predicate OnePerGroup(rs: seq<Reading>, s: seq<nat>, kept: seq<nat>) {
    && Indices(rs, s) && Indices(rs, kept)
    && DistinctGroups(rs, kept) && AllLead(rs, s, kept) && AllHaveSlots(rs, s, kept)
  }

  /** Where a group's slot is, or the length when it has none. */
  function SlotOf(rs: seq<Reading>, kept: seq<nat>, group: string): (p: nat)
    requires Indices(rs, kept)
    ensures p <= |kept| && (p < |kept| ==> rs[kept[p]].group == group)
    ensures forall a :: 0 <= a < p ==> rs[kept[a]].group != group
  {
    if kept == [] then 0
    else if rs[kept[0]].group == group then 0
    else 1 + SlotOf(rs, kept[1..], group)
  }

  lemma LeadGrows(rs: seq<Reading>, s: seq<nat>, x: nat, i: nat)
    requires Indices(rs, s) && x < |rs| && LeadsGroup(rs, s, i)
    requires rs[x].group == rs[i].group ==> rs[x].observedAt <= rs[i].observedAt && i <= x
    ensures LeadsGroup(rs, s + [x], i)
  {
    assert (s + [x])[..|s|] == s;
  }

  lemma OtherGroups(rs: seq<Reading>, kept: seq<nat>, p: nat)
    requires Indices(rs, kept) && DistinctGroups(rs, kept) && p < |kept|
    ensures forall a :: 0 <= a < |kept| && a != p ==> rs[kept[a]].group != rs[kept[p]].group
  {}

  lemma SlotsGrow(rs: seq<Reading>, s: seq<nat>, kept: seq<nat>, x: nat, after: seq<nat>)
    requires Indices(rs, s) && Indices(rs, kept) && Indices(rs, after) && x < |rs| && AllHaveSlots(rs, s, kept)
    requires |kept| <= |after| && forall a :: 0 <= a < |kept| ==> rs[after[a]].group == rs[kept[a]].group
    requires HasSlot(rs, after, rs[x].group)
    ensures AllHaveSlots(rs, s + [x], after)
  {
    forall k | 0 <= k < |s| ensures HasSlot(rs, after, rs[s[k]].group) {
      assert HasSlot(rs, kept, rs[s[k]].group);
      var a :| 0 <= a < |kept| && rs[kept[a]].group == rs[s[k]].group;
      assert rs[after[a]].group == rs[s[k]].group;
    }
  }

  /** A newer reading takes over its group's slot. */
  lemma SlotReplaced(rs: seq<Reading>, s: seq<nat>, kept: seq<nat>, p: nat, x: nat)
    requires OnePerGroup(rs, s, kept) && x < |rs| && p < |kept| && rs[kept[p]].group == rs[x].group
    requires rs[x].observedAt > rs[kept[p]].observedAt
    ensures OnePerGroup(rs, s + [x], kept[p := x])
  {
    var after := kept[p := x];
    OtherGroups(rs, kept, p);
    assert rs[after[p]].group == rs[x].group;
    SlotsGrow(rs, s, kept, x, after);
    NewLeader(rs, s, kept[p], x);
    forall a | 0 <= a < |after| ensures LeadsGroup(rs, s + [x], after[a]) {
      if a != p { LeadGrows(rs, s, x, kept[a]); }
    }
  }

  lemma NewLeader(rs: seq<Reading>, s: seq<nat>, leader: nat, x: nat)
    requires Indices(rs, s) && x < |rs| && LeadsGroup(rs, s, leader) && rs[x].group == rs[leader].group
    requires rs[x].observedAt > rs[leader].observedAt
    ensures LeadsGroup(rs, s + [x], x)
  {
    assert (s + [x])[|s|] == x;
  }

  /** A reading that is not newer changes nothing. */
  lemma SlotKept(rs: seq<Reading>, s: seq<nat>, kept: seq<nat>, p: nat, x: nat)
    requires OnePerGroup(rs, s, kept) && x < |rs| && p < |kept| && rs[kept[p]].group == rs[x].group
    requires rs[x].observedAt <= rs[kept[p]].observedAt && kept[p] <= x
    ensures OnePerGroup(rs, s + [x], kept)
  {
    OtherGroups(rs, kept, p);
    assert HasSlot(rs, kept, rs[x].group);
    SlotsGrow(rs, s, kept, x, kept);
    forall a | 0 <= a < |kept| ensures LeadsGroup(rs, s + [x], kept[a]) { LeadGrows(rs, s, x, kept[a]); }
  }

  /** A group seen for the first time gets a slot. */
  lemma SlotOpened(rs: seq<Reading>, s: seq<nat>, kept: seq<nat>, x: nat)
    requires OnePerGroup(rs, s, kept) && x < |rs|
    requires forall a :: 0 <= a < |kept| ==> rs[kept[a]].group != rs[x].group
    ensures OnePerGroup(rs, s + [x], kept + [x])
  {
    var after := kept + [x];
    assert rs[after[|kept|]].group == rs[x].group;
    SlotsGrow(rs, s, kept, x, after);
    FirstOfGroup(rs, s, kept, x);
    forall a | 0 <= a < |after| ensures LeadsGroup(rs, s + [x], after[a]) {
      if a < |kept| { LeadGrows(rs, s, x, kept[a]); }
    }
  }

  lemma FirstOfGroup(rs: seq<Reading>, s: seq<nat>, kept: seq<nat>, x: nat)
    requires Indices(rs, s) && Indices(rs, kept) && x < |rs| && AllHaveSlots(rs, s, kept)
    requires forall a :: 0 <= a < |kept| ==> rs[kept[a]].group != rs[x].group
    ensures LeadsGroup(rs, s + [x], x)
  {
    forall k | 0 <= k < |s| ensures rs[s[k]].group != rs[x].group { assert HasSlot(rs, kept, rs[s[k]].group); }
    assert (s + [x])[|s|] == x;
  }

  // ----- the loops -----

  predicate UnusableReason(r: Reading, policy: Policy, now: Instant, reason: DiscardReason) {
    match reason
    case FutureDated => r.observedAt > now
    case Stale => r.observedAt <= now && IsStale(r, policy, now)
    case SupersededInGroup => false
  }

  datatype Sifted = Sifted(kept: seq<nat>, discarded: seq<(nat, DiscardReason)>)

  /** What the first loop has after `n` readings: the usable ones, in order, and
      why the rest is not. */
  function Sift(rs: seq<Reading>, policy: Policy, now: Instant, n: nat): Sifted
    requires n <= |rs|
  {
    if n == 0 then Sifted([], []) else Judged(Sift(rs, policy, now, n - 1), rs[n - 1], n - 1, policy, now)
  }

  /** One reading, kept or discarded with its reason. */
  function Judged(so: Sifted, r: Reading, i: nat, policy: Policy, now: Instant): Sifted {
    if r.observedAt > now then so.(discarded := so.discarded + [(i, FutureDated)])
    else if IsStale(r, policy, now) then so.(discarded := so.discarded + [(i, Stale)])
    else so.(kept := so.kept + [i])
  }

  /** Usable readings below `n`, in submission order. */
  predicate UsableBelow(rs: seq<Reading>, policy: Policy, now: Instant, s: seq<nat>, n: nat)
    requires n <= |rs|
  {
    && (forall k :: 0 <= k < |s| ==> s[k] < n)
    && (forall k :: 0 <= k < |s| ==> Usable(rs[s[k]], policy, now))
    && (forall k, l :: 0 <= k < l < |s| ==> s[k] < s[l])
  }

  predicate AllUnusable(rs: seq<Reading>, policy: Policy, now: Instant, d: seq<(nat, DiscardReason)>) {
    forall k :: 0 <= k < |d| ==> d[k].0 < |rs| && UnusableReason(rs[d[k].0], policy, now, d[k].1)
  }

  predicate WellSifted(rs: seq<Reading>, policy: Policy, now: Instant, so: Sifted, n: nat)
    requires n <= |rs|
  {
    UsableBelow(rs, policy, now, so.kept, n) && AllUnusable(rs, policy, now, so.discarded)
  }

  lemma {:induction false} SiftKeepsUsable(rs: seq<Reading>, policy: Policy, now: Instant, n: nat)
    requires n <= |rs|
    ensures WellSifted(rs, policy, now, Sift(rs, policy, now, n), n)
  {
    if n > 0 {
      var so := Sift(rs, policy, now, n - 1);
      SiftKeepsUsable(rs, policy, now, n - 1);
      JudgedUsable(rs, policy, now, so, n - 1);
      assert Sift(rs, policy, now, n) == Judged(so, rs[n - 1], n - 1, policy, now);
    }
  }

  lemma JudgedUsable(rs: seq<Reading>, policy: Policy, now: Instant, so: Sifted, n: nat)
    requires n < |rs| && WellSifted(rs, policy, now, so, n)
    ensures WellSifted(rs, policy, now, Judged(so, rs[n], n, policy, now), n + 1)
  {
    UsableGrows(rs, policy, now, so.kept, n);
    if rs[n].observedAt > now {
      UnusableGrows(rs, policy, now, so.discarded, n, FutureDated);
    } else if IsStale(rs[n], policy, now) {
      UnusableGrows(rs, policy, now, so.discarded, n, Stale);
    }
  }

  lemma UsableGrows(rs: seq<Reading>, policy: Policy, now: Instant, s: seq<nat>, n: nat)
    requires n < |rs| && UsableBelow(rs, policy, now, s, n)
    ensures UsableBelow(rs, policy, now, s, n + 1)
    ensures Usable(rs[n], policy, now) ==> UsableBelow(rs, policy, now, s + [n], n + 1)
  {}

  lemma UnusableGrows(rs: seq<Reading>, policy: Policy, now: Instant, d: seq<(nat, DiscardReason)>, i: nat, reason: DiscardReason)
    requires AllUnusable(rs, policy, now, d) && i < |rs| && UnusableReason(rs[i], policy, now, reason)
    ensures AllUnusable(rs, policy, now, d + [(i, reason)])
  {}

  /** Every reading is either kept or discarded, once. */
  ghost predicate Splits(s: Sifted, whole: seq<nat>) {
    multiset(Firsts(s.discarded)) + multiset(s.kept) == multiset(whole)
  }

  lemma Noted(s: Sifted, whole: seq<nat>, x: nat, reason: DiscardReason)
    requires Splits(s, whole)
    ensures Splits(s.(discarded := s.discarded + [(x, reason)]), whole + [x])
  {
    assert Firsts(s.discarded + [(x, reason)]) == Firsts(s.discarded) + [x];
  }

  lemma Taken(s: Sifted, whole: seq<nat>, x: nat)
    requires Splits(s, whole)
    ensures Splits(s.(kept := s.kept + [x]), whole + [x])
  {}

  lemma Replaced(s: Sifted, whole: seq<nat>, p: nat, x: nat, reason: DiscardReason)
    requires Splits(s, whole) && p < |s.kept|
    ensures Splits(Sifted(s.kept[p := x], s.discarded + [(s.kept[p], reason)]), whole + [x])
  {
    var y := s.kept[p];
    assert Firsts(s.discarded + [(y, reason)]) == Firsts(s.discarded) + [y];
    assert s.kept == s.kept[..p] + [y] + s.kept[p + 1..];
    assert s.kept[p := x] == s.kept[..p] + [x] + s.kept[p + 1..];
  }

  lemma {:induction false} SiftSplits(rs: seq<Reading>, policy: Policy, now: Instant, n: nat)
    requires n <= |rs|
    ensures Splits(Sift(rs, policy, now, n), Range(n))
  {
    if n > 0 {
      SiftSplits(rs, policy, now, n - 1);
      assert Range(n) == Range(n - 1) + [n - 1];
      JudgedSplits(Sift(rs, policy, now, n - 1), rs[n - 1], n - 1, policy, now, Range(n - 1));
    }
  }

  lemma JudgedSplits(so: Sifted, r: Reading, i: nat, policy: Policy, now: Instant, whole: seq<nat>)
    requires Splits(so, whole)
    ensures Splits(Judged(so, r, i, policy, now), whole + [i])
  {
    Noted(so, whole, i, FutureDated);
    Noted(so, whole, i, Stale);
    Taken(so, whole, i);
  }

  /** What the second loop has after the readings in `s`: the newest reading of a
      group speaks for it, the rest are superseded. */
  function Newest(rs: seq<Reading>, s: seq<nat>): (r: Sifted)
    requires Indices(rs, s)
    ensures Indices(rs, r.kept)
  {
    if s == [] then Sifted([], [])
    else
      var so, x := Newest(rs, s[..|s| - 1]), s[|s| - 1];
      var p := SlotOf(rs, so.kept, rs[x].group);
      if p == |so.kept| then so.(kept := so.kept + [x])
      else if rs[x].observedAt > rs[so.kept[p]].observedAt then
        Sifted(so.kept[p := x], so.discarded + [(so.kept[p], SupersededInGroup)])
      else so.(discarded := so.discarded + [(x, SupersededInGroup)])
  }

  lemma {:induction false} NewestSplits(rs: seq<Reading>, s: seq<nat>)
    requires Indices(rs, s)
    ensures Splits(Newest(rs, s), s)
    ensures forall k :: 0 <= k < |Newest(rs, s).discarded| ==> Newest(rs, s).discarded[k].1 == SupersededInGroup
  {
    if s != [] {
      var front, x := s[..|s| - 1], s[|s| - 1];
      NewestSplits(rs, front);
      assert s == front + [x];
      var so := Newest(rs, front);
      var p := SlotOf(rs, so.kept, rs[x].group);
      if p == |so.kept| {
        Taken(so, front, x);
      } else {
        Replaced(so, front, p, x, SupersededInGroup);
        Noted(so, front, x, SupersededInGroup);
      }
    }
  }

  lemma {:induction false} NewestLeads(rs: seq<Reading>, s: seq<nat>)
    requires Indices(rs, s) && forall k, l :: 0 <= k < l < |s| ==> s[k] < s[l]
    ensures OnePerGroup(rs, s, Newest(rs, s).kept)
  {
    if s != [] {
      var front, x := s[..|s| - 1], s[|s| - 1];
      NewestLeads(rs, front);
      assert s == front + [x];
      var kept := Newest(rs, front).kept;
      var p := SlotOf(rs, kept, rs[x].group);
      if p == |kept| {
        SlotOpened(rs, front, kept, x);
      } else if rs[x].observedAt > rs[kept[p]].observedAt {
        SlotReplaced(rs, front, kept, p, x);
      } else {
        assert LeadsGroup(rs, front, kept[p]);
        SlotKept(rs, front, kept, p, x);
      }
    }
  }

  // ----- the whole selection -----

  /** `i` is used: usable, and the newest of its group among the usable ones,
      the first submitted of equals. */
  predicate Wins(rs: seq<Reading>, policy: Policy, now: Instant, i: nat) {
    && i < |rs| && Usable(rs[i], policy, now)
    && forall j :: 0 <= j < |rs| && Usable(rs[j], policy, now) && rs[j].group == rs[i].group ==>
         rs[j].observedAt < rs[i].observedAt || (rs[j].observedAt == rs[i].observedAt && i <= j)
  }

  /** Every submitted index is in exactly one of `used` and `discarded`; the used
      ones are exactly the winners, one per group; each discard says why. */
  ghost predicate Selected(rs: seq<Reading>, policy: Policy, now: Instant, used: seq<nat>, discarded: seq<(nat, DiscardReason)>) {
    && Splits(Sifted(used, discarded), Range(|rs|))
    && (forall i :: 0 <= i < |rs| ==> (i in used <==> Wins(rs, policy, now, i)))
    && Indices(rs, used) && DistinctGroups(rs, used)
    && (forall k :: 0 <= k < |discarded| ==> discarded[k].0 < |rs| && DiscardedFor(rs, policy, now, discarded[k].0, discarded[k].1))
  }

  predicate DiscardedFor(rs: seq<Reading>, policy: Policy, now: Instant, i: nat, reason: DiscardReason)
    requires i < |rs|
  {
    match reason
    case FutureDated => rs[i].observedAt > now
    case Stale => rs[i].observedAt <= now && IsStale(rs[i], policy, now)
    case SupersededInGroup => Usable(rs[i], policy, now) && !Wins(rs, policy, now, i)
  }

  function Select(rs: seq<Reading>, policy: Policy, now: Instant): (r: Sifted)
    ensures Indices(rs, r.kept)
  {
    SiftKeepsUsable(rs, policy, now, |rs|);
    var usable := Sift(rs, policy, now, |rs|);
    var newest := Newest(rs, usable.kept);
    Sifted(newest.kept, usable.discarded + newest.discarded)
  }

  lemma InRange(n: nat, i: nat)
    ensures multiset(Range(n))[i] == if i < n then 1 else 0
  {
    if n > 0 {
      InRange(n - 1, i);
      assert Range(n) == Range(n - 1) + [n - 1];
    }
  }

  /** Usable is exactly what the first loop keeps. */
  lemma UsableIsKept(rs: seq<Reading>, policy: Policy, now: Instant, i: nat)
    requires i < |rs|
    ensures i in Sift(rs, policy, now, |rs|).kept <==> Usable(rs[i], policy, now)
  {
    var so := Sift(rs, policy, now, |rs|);
    SiftKeepsUsable(rs, policy, now, |rs|);
    SiftSplits(rs, policy, now, |rs|);
    InRange(|rs|, i);
    if i !in so.kept {
      assert i in multiset(Firsts(so.discarded));
      var k :| 0 <= k < |so.discarded| && Firsts(so.discarded)[k] == i;
      assert UnusableReason(rs[i], policy, now, so.discarded[k].1);
    }
  }

  lemma LeaderWins(rs: seq<Reading>, policy: Policy, now: Instant, i: nat)
    requires i < |rs|
    ensures SiftIndices(rs, policy, now)
    ensures LeadsGroup(rs, Sift(rs, policy, now, |rs|).kept, i) <==> Wins(rs, policy, now, i)
  {
    SiftKeepsUsable(rs, policy, now, |rs|);
    var s := Sift(rs, policy, now, |rs|).kept;
    UsableIsKept(rs, policy, now, i);
    forall j | 0 <= j < |rs| ensures Usable(rs[j], policy, now) <==> j in s { UsableIsKept(rs, policy, now, j); }
  }

  predicate SiftIndices(rs: seq<Reading>, policy: Policy, now: Instant) {
    Indices(rs, Sift(rs, policy, now, |rs|).kept)
  }

  lemma SelectSplits(rs: seq<Reading>, policy: Policy, now: Instant)
    ensures Splits(Select(rs, policy, now), Range(|rs|))
  {
    SiftKeepsUsable(rs, policy, now, |rs|);
    SiftSplits(rs, policy, now, |rs|);
    var so := Sift(rs, policy, now, |rs|);
    NewestSplits(rs, so.kept);
    assert Firsts(so.discarded + Newest(rs, so.kept).discarded) == Firsts(so.discarded) + Firsts(Newest(rs, so.kept).discarded);
  }

  /** Being kept is winning. */
  lemma KeptAreWinners(rs: seq<Reading>, policy: Policy, now: Instant, i: nat)
    requires i < |rs|
    ensures i in Select(rs, policy, now).kept <==> Wins(rs, policy, now, i)
  {
    SiftKeepsUsable(rs, policy, now, |rs|);
    var s := Sift(rs, policy, now, |rs|).kept;
    var kept := Newest(rs, s).kept;
    NewestLeads(rs, s);
    LeaderWins(rs, policy, now, i);
    if i in kept {
      var a :| 0 <= a < |kept| && kept[a] == i;
      assert LeadsGroup(rs, s, kept[a]);
    }
    if LeadsGroup(rs, s, i) { LeaderIsKept(rs, s, kept, i); }
  }

  lemma LeaderIsKept(rs: seq<Reading>, s: seq<nat>, kept: seq<nat>, i: nat)
    requires OnePerGroup(rs, s, kept) && i < |rs| && LeadsGroup(rs, s, i)
    ensures i in kept
  {
    var k :| 0 <= k < |s| && s[k] == i;
    assert HasSlot(rs, kept, rs[s[k]].group);
    var a :| 0 <= a < |kept| && rs[kept[a]].group == rs[i].group;
    assert LeadsGroup(rs, s, kept[a]);
    var l :| 0 <= l < |s| && s[l] == kept[a];
    assert kept[a] == i;
  }

  lemma DiscardsExplained(rs: seq<Reading>, policy: Policy, now: Instant, k: nat)
    requires k < |Select(rs, policy, now).discarded|
    ensures var p := Select(rs, policy, now).discarded[k]; p.0 < |rs| && DiscardedFor(rs, policy, now, p.0, p.1)
  {
    SiftKeepsUsable(rs, policy, now, |rs|);
    var so := Sift(rs, policy, now, |rs|);
    if k < |so.discarded| {
      assert Select(rs, policy, now).discarded[k] == so.discarded[k];
    } else {
      SupersededLost(rs, policy, now, k - |so.discarded|);
    }
  }

  lemma SupersededLost(rs: seq<Reading>, policy: Policy, now: Instant, k: nat)
    requires SiftIndices(rs, policy, now)
    requires k < |Newest(rs, Sift(rs, policy, now, |rs|).kept).discarded|
    ensures var p := Newest(rs, Sift(rs, policy, now, |rs|).kept).discarded[k];
            p.0 < |rs| && DiscardedFor(rs, policy, now, p.0, p.1)
  {
    var s := Sift(rs, policy, now, |rs|).kept;
    var newest := Newest(rs, s);
    var i := newest.discarded[k].0;
    NewestSplits(rs, s);
    assert Firsts(newest.discarded)[k] == i;
    assert i in multiset(Firsts(newest.discarded));
    assert i in multiset(s);
    UsableIsKept(rs, policy, now, i);
    SelectSplits(rs, policy, now);
    InRange(|rs|, i);
    OnlyOnce(Select(rs, policy, now), |rs|, i, |Sift(rs, policy, now, |rs|).discarded| + k);
    KeptAreWinners(rs, policy, now, i);
  }

  lemma OnlyOnce(s: Sifted, n: nat, i: nat, k: nat)
    requires Splits(s, Range(n)) && k < |s.discarded| && s.discarded[k].0 == i
    ensures i !in s.kept
  {
    InRange(n, i);
    assert Firsts(s.discarded)[k] == i;
    assert i in multiset(Firsts(s.discarded));
    assert multiset(Firsts(s.discarded))[i] + multiset(s.kept)[i] <= 1;
    assert i !in multiset(s.kept);
  }

  /** What the selection loops promise, for any arrangement of the kept ones. */
  lemma SelectionHolds(rs: seq<Reading>, policy: Policy, now: Instant, used: seq<nat>)
    requires Indices(rs, used) && multiset(used) == multiset(Select(rs, policy, now).kept)
    ensures Selected(rs, policy, now, used, Select(rs, policy, now).discarded)
  {
    var so := Select(rs, policy, now);
    SelectSplits(rs, policy, now);
    forall i | 0 <= i < |rs| ensures i in used <==> Wins(rs, policy, now, i) {
      KeptAreWinners(rs, policy, now, i);
      assert i in used <==> i in multiset(used);
      assert i in so.kept <==> i in multiset(so.kept);
    }
    forall k | 0 <= k < |so.discarded|
      ensures so.discarded[k].0 < |rs| && DiscardedFor(rs, policy, now, so.discarded[k].0, so.discarded[k].1)
    {
      DiscardsExplained(rs, policy, now, k);
    }
    WinnersDiffer(rs, policy, now, used);
  }

  /** No two used readings share a group. */
  lemma WinnersDiffer(rs: seq<Reading>, policy: Policy, now: Instant, used: seq<nat>)
    requires Indices(rs, used) && Splits(Sifted(used, Select(rs, policy, now).discarded), Range(|rs|))
    requires forall i :: 0 <= i < |rs| ==> (i in used <==> Wins(rs, policy, now, i))
    ensures DistinctGroups(rs, used)
  {
    forall a, b | 0 <= a < b < |used| ensures rs[used[a]].group != rs[used[b]].group {
      assert Wins(rs, policy, now, used[a]) && Wins(rs, policy, now, used[b]);
      if rs[used[a]].group == rs[used[b]].group {
        assert used[a] == used[b];
        InRange(|rs|, used[a]);
        TwiceCounted(used, a, b);
      }
    }
  }

  lemma TwiceCounted(s: seq<nat>, a: nat, b: nat)
    requires a < b < |s| && s[a] == s[b]
    ensures multiset(s)[s[a]] >= 2
  {
    assert s == s[..a] + [s[a]] + s[a + 1..b] + [s[b]] + s[b + 1..];
  }

  // ----- aggregate -----

  /** What `aggregate` answers. */
  function Outcome(rs: seq<Reading>, policy: Policy, now: Instant): (r: Result<Aggregated, PriceError>) {
    if policy.minSources < 2 then Err(PolicyDemandsTooFewSources)
    else
      var so := Select(rs, policy, now);
      var groupCount := Min(|so.kept|, U32_MAX);
      if groupCount < policy.minSources then Err(NotEnoughSources(policy.minSources, groupCount))
      else
        var rate := RateFrom(rs, so.kept, policy);
        if rate.Err? then Err(rate.error)
        else Ok(Aggregated(rate.value.num, rate.value.den, groupCount, rate.value.deviationBps, rate.value.used, so.discarded))
  }

  /** On success every submitted reading is used or discarded with its reason,
      the used ones are exactly the newest of each group that has a usable
      reading, and there are at least as many as the policy asks for. */
  lemma AggregateSelects(rs: seq<Reading>, policy: Policy, now: Instant)
    requires Outcome(rs, policy, now).Ok?
    ensures var a := Outcome(rs, policy, now).value;
            && Selected(rs, policy, now, a.used, a.discarded)
            && policy.minSources >= 2 && |a.used| >= policy.minSources && a.groupCount == Min(|a.used|, U32_MAX)
  {
    var so := Select(rs, policy, now);
    SortPermutes(rs, so.kept);
    SelectionHolds(rs, policy, now, SortByRate(rs, so.kept));
  }

  /** And when only two readings are used, or those used can be compared within
      256 bits, the price can be trusted. */
  lemma AggregatePrices(rs: seq<Reading>, policy: Policy, now: Instant)
    requires Outcome(rs, policy, now).Ok? && Indices(rs, Outcome(rs, policy, now).value.used)
    requires |Outcome(rs, policy, now).value.used| <= 2 || Comparable(rs, Outcome(rs, policy, now).value.used)
    ensures var a := Outcome(rs, policy, now).value;
            Trustworthy(rs, policy, Rate(a.num, a.den, a.deviationBps, a.used)) && IsMedian(rs, a.used, Ratios.Ratio(a.num, a.den))
  {
    var so := Select(rs, policy, now);
    SortPermutes(rs, so.kept);
    if |so.kept| > 2 { ComparablePermutes(rs, SortByRate(rs, so.kept), so.kept); }
    RateIsTrustworthy(rs, so.kept, policy);
    RateIsMedian(rs, so.kept, policy);
  }

  ghost function Winners(rs: seq<Reading>, policy: Policy, now: Instant): set<nat> {
    set i | 0 <= i < |rs| && Wins(rs, policy, now, i)
  }

  lemma WinnersAreKept(rs: seq<Reading>, policy: Policy, now: Instant)
    ensures |Winners(rs, policy, now)| == |Select(rs, policy, now).kept|
    ensures forall i :: i in Select(rs, policy, now).kept ==> i in Winners(rs, policy, now)
  {
    var kept := Select(rs, policy, now).kept;
    SelectionHolds(rs, policy, now, kept);
    CountDistinct(kept);
    assert Winners(rs, policy, now) == Members(kept);
  }

  /** Too few independent groups, counted without the loops. */
  lemma AggregateRefuses(rs: seq<Reading>, policy: Policy, now: Instant)
    ensures Outcome(rs, policy, now) == Err(PolicyDemandsTooFewSources) <==> policy.minSources < 2
    ensures policy.minSources >= 2 && Min(|Winners(rs, policy, now)|, U32_MAX) < policy.minSources
            <==> Outcome(rs, policy, now) == Err(NotEnoughSources(policy.minSources, Min(|Winners(rs, policy, now)|, U32_MAX)))
  {
    WinnersAreKept(rs, policy, now);
    RateErrors(rs, Select(rs, policy, now).kept, policy);
  }

  lemma RateErrors(rs: seq<Reading>, perGroup: seq<nat>, policy: Policy)
    requires Indices(rs, perGroup)
    ensures var r := RateFrom(rs, perGroup, policy);
            r.Err? ==> !r.error.PolicyDemandsTooFewSources? && !r.error.NotEnoughSources?
  {}

  /** A refusal for divergence names two winners really further apart than the
      ceiling. */
  lemma AggregateDiverges(rs: seq<Reading>, policy: Policy, now: Instant)
    requires Outcome(rs, policy, now).Err? && Outcome(rs, policy, now).error.Diverged?
    ensures exists x, y :: x in Winners(rs, policy, now) && y in Winners(rs, policy, now)
                           && !Within(RateOf(rs[x]), RateOf(rs[y]), policy.maxDeviationBps)
  {
    var kept := Select(rs, policy, now).kept;
    DivergedIsReal(rs, kept, policy);
    WinnersAreKept(rs, policy, now);
    var x, y :| x in kept && y in kept && !Within(RateOf(rs[x]), RateOf(rs[y]), policy.maxDeviationBps);
    assert x in Winners(rs, policy, now) && y in Winners(rs, policy, now);
  }

  /** First loop: readings that are neither future-dated nor stale. */
  method KeepUsable(rs: seq<Reading>, policy: Policy, now: Instant)
    returns (usable: seq<nat>, discarded: seq<(nat, DiscardReason)>)
    ensures Sifted(usable, discarded) == Sift(rs, policy, now, |rs|)
  {
    discarded, usable := [], [];
    for n := 0 to |rs|
      invariant Sifted(usable, discarded) == Sift(rs, policy, now, n)
    {
      if rs[n].observedAt > now {
        discarded := discarded + [(n, FutureDated)];
      } else if IsStale(rs[n], policy, now) {
        discarded := discarded + [(n, Stale)];
      } else {
        usable := usable + [n];
      }
    }
  }

  /** Second loop: one slot per group, overwritten in place by a newer reading. */
  method KeepNewest(rs: seq<Reading>, usable: seq<nat>)
    returns (perGroup: seq<nat>, discarded: seq<(nat, DiscardReason)>)
    requires Indices(rs, usable)
    ensures Sifted(perGroup, discarded) == Newest(rs, usable)
  {
    perGroup, discarded := [], [];
    for n := 0 to |usable|
      invariant Indices(rs, usable[..n]) && Sifted(perGroup, discarded) == Newest(rs, usable[..n])
    {
      var x := usable[n];
      assert usable[..n + 1][..n] == usable[..n];
      var p := SlotOf(rs, perGroup, rs[x].group);
      if p < |perGroup| {
        if rs[x].observedAt > rs[perGroup[p]].observedAt {
          discarded := discarded + [(perGroup[p], SupersededInGroup)];
          perGroup := perGroup[p := x];
        } else {
          discarded := discarded + [(x, SupersededInGroup)];
        }
      } else {
        perGroup := perGroup + [x];
      }
    }
    assert usable[..|usable|] == usable;
  }

  /** `aggregate` itself. */
  method Aggregate(rs: seq<Reading>, policy: Policy, now: Instant) returns (r: Result<Aggregated, PriceError>)
    ensures r == Outcome(rs, policy, now)
  {
    if policy.minSources < 2 {
      return Err(PolicyDemandsTooFewSources);
    }
    var usable, unusable := KeepUsable(rs, policy, now);
    SiftKeepsUsable(rs, policy, now, |rs|);
    var perGroup, superseded := KeepNewest(rs, usable);
    var groupCount := Min(|perGroup|, U32_MAX);
    if groupCount < policy.minSources {
      return Err(NotEnoughSources(policy.minSources, groupCount));
    }
    var rate := RateFrom(rs, perGroup, policy);
    if rate.Err? {
      return Err(rate.error);
    }
    return Ok(Aggregated(rate.value.num, rate.value.den, groupCount, rate.value.deviationBps, rate.value.used, unusable + superseded));
  }

  // ----- what the overflow rule lets through -----

  const UNIT: Amount := 0x8000_0000_0000_0000_0000_0000_0000_0000
  const OUTLIER: Amount := 0x1_00_0000_0000_0000_0000_0000_0000_0000_0000_0000_0000_0000_0000

  /** Two sources say one, a third says two to the two hundredth, written so that
      its cross products with the others exceed 256 bits. */
  function HiddenOutlier(): seq<Reading> {
    [Reading("a", "a", UNIT, UNIT, 0), Reading("b", "b", OUTLIER, 1, 0), Reading("c", "c", UNIT, UNIT, 0)]
  }

  lemma OutlierIsMiddle(policy: Policy)
    ensures RateFrom(HiddenOutlier(), [0, 1, 2], policy) == Ok(Rate(OUTLIER, 1, 0, [0, 1, 2]))
  {
    var rs := HiddenOutlier();
    ProductIs(UNIT, UNIT);
    ProductIs(OUTLIER, UNIT);
    ProductIs(UNIT, 1);
    assert SortByRate(rs, [0]) == [0] by { assert SortByRate(rs, []) == []; assert [0][..0] == []; }
    assert Compare(rs[1], rs[0]).Equal? && Compare(rs[2], rs[1]).Equal?;
    assert SortByRate(rs, [0, 1]) == [0, 1] by { assert [0, 1][..1] == [0]; }
    assert SortByRate(rs, [0, 1, 2]) == [0, 1, 2] by { assert [0, 1, 2][..2] == [0, 1]; }
  }

  /** Usable readings of different groups are all kept. */
  lemma {:induction false} AllKept(rs: seq<Reading>, s: seq<nat>)
    requires Indices(rs, s) && DistinctGroups(rs, s)
    ensures Newest(rs, s) == Sifted(s, [])
  {
    if s != [] {
      var front := s[..|s| - 1];
      AllKept(rs, front);
      assert SlotOf(rs, front, rs[s[|s| - 1]].group) == |front|;
      assert front + [s[|s| - 1]] == s;
    }
  }

  lemma {:induction false} AllUsable(rs: seq<Reading>, policy: Policy, now: Instant, n: nat)
    requires n <= |rs| && forall i :: 0 <= i < |rs| ==> Usable(rs[i], policy, now)
    ensures Sift(rs, policy, now, n) == Sifted(Range(n), [])
  {
    if n > 0 {
      AllUsable(rs, policy, now, n - 1);
      assert Range(n - 1) + [n - 1] == Range(n);
    }
  }

  lemma OutlierIsSelected(policy: Policy)
    requires 0 <= policy.maxAgeSeconds <= 86_400
    ensures Select(HiddenOutlier(), policy, 0) == Sifted([0, 1, 2], [])
  {
    AllUsable(HiddenOutlier(), policy, 0, 3);
    assert Range(3) == [0, 1, 2];
    AllKept(HiddenOutlier(), [0, 1, 2]);
  }

  /** Otherwise the ceiling is not enforced: the outlier sorts as an equal between
      the others, only the ends are compared, and the whole operation, under any
      policy that takes three sources, returns it as the price with no spread. */
  lemma OutlierBecomesPrice(policy: Policy)
    requires 2 <= policy.minSources <= 3 && 0 <= policy.maxAgeSeconds <= 86_400
    ensures Outcome(HiddenOutlier(), policy, 0) == Ok(Aggregated(OUTLIER, 1, 3, 0, [0, 1, 2], []))
    ensures !Within(RateOf(HiddenOutlier()[0]), RateOf(HiddenOutlier()[1]), policy.maxDeviationBps)
  {
    OutlierIsSelected(policy);
    OutlierIsMiddle(policy);
  }
}
