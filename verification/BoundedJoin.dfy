/** The hand-written bounded executor behind a delivery pass
    (crates/gateway-application/src/outbox.rs). */
module BoundedJoin {
  import opened Common

  /** A future that is ready on its `needed`-th poll. */
  datatype Task<T> = Task(needed: nat, output: T)

  /** A started future: which one it is and how many polls it still needs. */
  datatype Slot = Slot(index: nat, left: nat)

  /** The executor between two polls of a sweep: the futures in flight, the next
      to start, what has come out, how often each was polled, and how far the
      sweep has got. */
  datatype State<T> = State(running: seq<Slot>, next: nat, outputs: seq<Option<T>>, polls: seq<nat>, position: nat)

  /** The futures in flight, split into those this sweep has polled and found
      pending and those it has yet to poll. */
  datatype Split = Split(pending: set<nat>, todo: set<nat>)

  predicate Sized<T>(tasks: seq<Task<T>>, st: State<T>) {
    |st.outputs| == |st.polls| == |tasks| && st.next <= |tasks| && st.position <= |st.running|
  }

  /** A future in flight has been polled as often as its slot says, and has no
      output yet. */
  predicate SlotOk<T(==)>(tasks: seq<Task<T>>, st: State<T>, s: Slot)
    requires Sized(tasks, st)
  {
    s.index < st.next && s.left >= 1 && st.polls[s.index] + s.left == tasks[s.index].needed && st.outputs[s.index] == None
  }

  /** A future not in flight is done and polled exactly `needed` times, or has not
      been touched. */
  predicate RestOk<T(==)>(tasks: seq<Task<T>>, st: State<T>, i: nat)
    requires Sized(tasks, st) && i < |tasks|
  {
    if i < st.next then st.outputs[i] == Some(tasks[i].output) && st.polls[i] == tasks[i].needed
    else st.outputs[i] == None && st.polls[i] == 0
  }

  predicate DistinctSlots(running: seq<Slot>) {
    forall k, l :: 0 <= k < l < |running| ==> running[k].index != running[l].index
  }

  /** The split names exactly the slots on either side of the position. */
  predicate Places(running: seq<Slot>, position: nat, sp: Split) {
    && position <= |running| && DistinctSlots(running) && sp.pending !! sp.todo
    && |sp.pending| == position && |sp.todo| == |running| - position
    && (forall k :: 0 <= k < position ==> running[k].index in sp.pending)
    && (forall k :: position <= k < |running| ==> running[k].index in sp.todo)
  }

  ghost predicate Inv<T>(tasks: seq<Task<T>>, st: State<T>, sp: Split) {
    && Sized(tasks, st) && Places(st.running, st.position, sp)
    && (forall k :: 0 <= k < |st.running| ==> SlotOk(tasks, st, st.running[k]))
    && (forall i :: 0 <= i < |tasks| && i !in sp.pending && i !in sp.todo ==> RestOk(tasks, st, i))
  }

  /** Since the sweep began with `began` in flight, each of those was polled once,
      except the ones still to come. */
  ghost predicate Swept(before: seq<nat>, began: set<nat>, polls: seq<nat>, sp: Split) {
    && |before| == |polls| && sp.pending + sp.todo <= began
    && (forall i :: 0 <= i < |polls| ==> polls[i] == before[i] + if i in began && i !in sp.todo then 1 else 0)
  }

  // ----- starting futures -----

  lemma StartOne<T>(tasks: seq<Task<T>>, st: State<T>, sp: Split)
    requires Inv(tasks, st, sp) && st.next < |tasks| && tasks[st.next].needed >= 1
    ensures Inv(tasks, st.(next := st.next + 1, running := st.running + [Slot(st.next, tasks[st.next].needed)]),
                sp.(todo := sp.todo + {st.next}))
  {
    NotInFlight(tasks, st, sp);
  }

  /** The next future to start is not in flight yet. */
  lemma NotInFlight<T>(tasks: seq<Task<T>>, st: State<T>, sp: Split)
    requires Inv(tasks, st, sp)
    ensures st.next !in sp.pending && st.next !in sp.todo
  {
    InFlightHasSlot(st.running, st.position, sp);
  }

  /** By counting, every future in flight has a slot. */
  lemma InFlightHasSlot(running: seq<Slot>, position: nat, sp: Split)
    requires Places(running, position, sp)
    ensures forall i :: i in sp.pending ==> exists k :: 0 <= k < position && running[k].index == i
    ensures forall i :: i in sp.todo ==> exists k :: position <= k < |running| && running[k].index == i
  {
    Covered(running[..position], sp.pending);
    Covered(running[position..], sp.todo);
    forall i | i in sp.pending ensures exists k :: 0 <= k < position && running[k].index == i {
      var k :| 0 <= k < position && running[..position][k].index == i;
      assert running[k].index == i;
    }
    forall i | i in sp.todo ensures exists k :: position <= k < |running| && running[k].index == i {
      var k :| 0 <= k < |running| - position && running[position..][k].index == i;
      assert running[position + k].index == i;
    }
  }

  lemma {:induction false} Covered(slots: seq<Slot>, s: set<nat>)
    requires DistinctSlots(slots) && |slots| == |s| && forall k :: 0 <= k < |slots| ==> slots[k].index in s
    ensures forall i :: i in s ==> exists k :: 0 <= k < |slots| && slots[k].index == i
  {
    if slots != [] {
      var front, last := slots[..|slots| - 1], slots[|slots| - 1];
      Covered(front, s - {last.index});
      forall i | i in s ensures exists k :: 0 <= k < |slots| && slots[k].index == i {
        if i != last.index {
          assert i in s - {last.index};
          var k :| 0 <= k < |front| && front[k].index == i;
          assert slots[k].index == i;
        }
      }
    }
  }

  // ----- one poll -----

  /** `swap_remove`: the last element takes the vacated place. */
  function SwapRemove(running: seq<Slot>, position: nat): (r: seq<Slot>)
    requires position < |running|
    ensures |r| == |running| - 1
    ensures forall k :: 0 <= k < |r| ==> r[k] == running[if k == position then |running| - 1 else k]
  {
    var last := running[|running| - 1];
    if position == |running| - 1 then running[..position] else running[..|running| - 1][position := last]
  }

  /** A future that is ready gives its output and its place away; one that is not
      keeps its place and the sweep moves on. */
  function Poll<T>(tasks: seq<Task<T>>, st: State<T>): State<T>
    requires Sized(tasks, st) && st.position < |st.running|
    requires st.running[st.position].index < |tasks| && st.running[st.position].left >= 1
  {
    var s := st.running[st.position];
    var polls := st.polls[s.index := st.polls[s.index] + 1];
    if s.left == 1 then
      st.(running := SwapRemove(st.running, st.position), outputs := st.outputs[s.index := Some(tasks[s.index].output)], polls := polls)
    else
      st.(running := st.running[st.position := Slot(s.index, s.left - 1)], polls := polls, position := st.position + 1)
  }

  ghost function Shift(s: Slot, sp: Split): Split {
    Split(if s.left == 1 then sp.pending else sp.pending + {s.index}, sp.todo - {s.index})
  }

  lemma PollPlaces<T>(tasks: seq<Task<T>>, st: State<T>, sp: Split)
    requires Inv(tasks, st, sp) && st.position < |st.running| && SlotOk(tasks, st, st.running[st.position])
    ensures Places(Poll(tasks, st).running, Poll(tasks, st).position, Shift(st.running[st.position], sp))
  {}

  lemma PollKeepsInv<T>(tasks: seq<Task<T>>, st: State<T>, sp: Split)
    requires Inv(tasks, st, sp) && st.position < |st.running| && SlotOk(tasks, st, st.running[st.position])
    ensures Inv(tasks, Poll(tasks, st), Shift(st.running[st.position], sp))
  {
    PollPlaces(tasks, st, sp);
    var s, after := st.running[st.position], Poll(tasks, st);
    forall k | 0 <= k < |after.running| ensures SlotOk(tasks, after, after.running[k]) {
      var l := if s.left == 1 && k == st.position then |st.running| - 1 else k;
      assert SlotOk(tasks, st, st.running[l]);
    }
    forall i | 0 <= i < |tasks| && i !in Shift(s, sp).pending && i !in Shift(s, sp).todo ensures RestOk(tasks, after, i) {
      if i != s.index { assert RestOk(tasks, st, i); }
    }
  }

  lemma PollKeepsSwept<T>(tasks: seq<Task<T>>, st: State<T>, sp: Split, before: seq<nat>, began: set<nat>)
    requires Inv(tasks, st, sp) && st.position < |st.running| && SlotOk(tasks, st, st.running[st.position])
    requires Swept(before, began, st.polls, sp)
    ensures Swept(before, began, Poll(tasks, st).polls, Shift(st.running[st.position], sp))
  {}

  // ----- progress -----

  function TotalLeft<T>(tasks: seq<Task<T>>, polls: seq<nat>): int
    requires |polls| == |tasks|
  {
    if tasks == [] then 0
    else TotalLeft(tasks[..|tasks| - 1], polls[..|polls| - 1]) + tasks[|tasks| - 1].needed - polls[|polls| - 1]
  }

  lemma {:induction false} PollCounts<T>(tasks: seq<Task<T>>, polls: seq<nat>, i: nat)
    requires |polls| == |tasks| && i < |tasks|
    ensures TotalLeft(tasks, polls[i := polls[i] + 1]) == TotalLeft(tasks, polls) - 1
  {
    var front := polls[..|polls| - 1];
    if i == |tasks| - 1 {
      assert polls[i := polls[i] + 1][..|polls| - 1] == front;
    } else {
      PollCounts(tasks[..|tasks| - 1], front, i);
      assert polls[i := polls[i] + 1][..|polls| - 1] == front[i := front[i] + 1];
    }
  }

  lemma {:induction false} LeftIsNatural<T>(tasks: seq<Task<T>>, polls: seq<nat>)
    requires |polls| == |tasks| && forall i :: 0 <= i < |tasks| ==> polls[i] <= tasks[i].needed
    ensures TotalLeft(tasks, polls) >= 0
  {
    if tasks != [] { LeftIsNatural(tasks[..|tasks| - 1], polls[..|polls| - 1]); }
  }

  lemma PollsWithinNeed<T>(tasks: seq<Task<T>>, st: State<T>, sp: Split)
    requires Inv(tasks, st, sp)
    ensures TotalLeft(tasks, st.polls) >= 0
  {
    InFlightHasSlot(st.running, st.position, sp);
    forall i | 0 <= i < |tasks| ensures st.polls[i] <= tasks[i].needed {
      if i in sp.pending || i in sp.todo {
        var k :| 0 <= k < |st.running| && st.running[k].index == i;
        assert SlotOk(tasks, st, st.running[k]);
      } else {
        assert RestOk(tasks, st, i);
      }
    }
    LeftIsNatural(tasks, st.polls);
  }

  // ----- the executor -----

  /** Fills the free places with the next futures. */
  method StartNext<T>(tasks: seq<Task<T>>, cap: nat, start: State<T>, ghost began: Split) returns (st: State<T>, ghost sp: Split)
    requires Inv(tasks, start, began) && |start.running| <= cap
    requires forall i :: 0 <= i < |tasks| ==> tasks[i].needed >= 1
    ensures Inv(tasks, st, sp) && st.position == start.position && st.polls == start.polls && sp.pending == began.pending
    ensures |st.running| == Min(cap, |start.running| + |tasks| - start.next)
    ensures st.next - start.next == |st.running| - |start.running|
  {
    st, sp := start, began;
    while |st.running| < cap && st.next < |tasks|
      invariant Inv(tasks, st, sp) && st.position == start.position && st.polls == start.polls && sp.pending == began.pending
      invariant |st.running| <= cap && st.next - start.next == |st.running| - |start.running|
    {
      StartOne(tasks, st, sp);
      sp := sp.(todo := sp.todo + {st.next});
      st := st.(next := st.next + 1, running := st.running + [Slot(st.next, tasks[st.next].needed)]);
    }
  }

  ghost predicate MidSweep<T>(tasks: seq<Task<T>>, start: State<T>, began: Split, st: State<T>, sp: Split) {
    && Sized(tasks, start) && Inv(tasks, st, sp) && Swept(start.polls, began.todo, st.polls, sp)
    && st.next == start.next && |st.running| <= |start.running|
    && TotalLeft(tasks, st.polls) == TotalLeft(tasks, start.polls) - (|start.running| - (|st.running| - st.position))
  }

  lemma PollAdvances<T>(tasks: seq<Task<T>>, start: State<T>, began: Split, st: State<T>, sp: Split)
    requires MidSweep(tasks, start, began, st, sp) && st.position < |st.running|
    ensures SlotOk(tasks, st, st.running[st.position])
    ensures MidSweep(tasks, start, began, Poll(tasks, st), Shift(st.running[st.position], sp))
  {
    assert SlotOk(tasks, st, st.running[st.position]);
    var after, sq := Poll(tasks, st), Shift(st.running[st.position], sp);
    assert Inv(tasks, after, sq) by { PollKeepsInv(tasks, st, sp); }
    assert Swept(start.polls, began.todo, after.polls, sq) by { PollKeepsSwept(tasks, st, sp, start.polls, began.todo); }
    PollMeasures(tasks, st);
  }

  lemma PollMeasures<T>(tasks: seq<Task<T>>, st: State<T>)
    requires Sized(tasks, st) && st.position < |st.running|
    requires st.running[st.position].index < |tasks| && st.running[st.position].left >= 1
    ensures var after := Poll(tasks, st);
            && |after.polls| == |tasks| && TotalLeft(tasks, after.polls) == TotalLeft(tasks, st.polls) - 1
            && |after.running| - after.position == |st.running| - st.position - 1
            && |after.running| <= |st.running| && after.next == st.next
  {
    PollCounts(tasks, st.polls, st.running[st.position].index);
  }

  /** One pass over the running futures. Each of them is polled exactly once,
      although a finished one is replaced in place by the last of the list. */
  method Sweep<T>(tasks: seq<Task<T>>, start: State<T>, ghost began: Split) returns (st: State<T>, ghost sp: Split)
    requires Inv(tasks, start, began) && start.position == 0
    ensures Inv(tasks, st, sp) && st.position == 0 && st.next == start.next && |st.running| <= |start.running|
    ensures forall i :: 0 <= i < |tasks| ==> st.polls[i] == start.polls[i] + if i in began.todo then 1 else 0
    ensures TotalLeft(tasks, st.polls) == TotalLeft(tasks, start.polls) - |start.running|
  {
    st, sp := start, began;
    while st.position < |st.running|
      invariant MidSweep(tasks, start, began, st, sp)
      decreases |st.running| - st.position
    {
      PollAdvances(tasks, start, began, st, sp);
      sp := Shift(st.running[st.position], sp);
      st := Poll(tasks, st);
    }
    NextSweep(tasks, st, sp);
    st, sp := st.(position := 0), Split({}, sp.pending);
  }

  /** Everything in flight is yet to be polled by the next sweep. */
  lemma NextSweep<T>(tasks: seq<Task<T>>, st: State<T>, sp: Split)
    requires Inv(tasks, st, sp) && st.position == |st.running|
    ensures sp.todo == {} && Inv(tasks, st.(position := 0), Split({}, sp.pending))
  {
    var after, sq := st.(position := 0), Split({}, sp.pending);
    assert sp.todo == {};
    forall k | 0 <= k < |after.running| ensures SlotOk(tasks, after, after.running[k]) {
      assert SlotOk(tasks, st, st.running[k]);
    }
    forall i | 0 <= i < |tasks| && i !in sq.pending && i !in sq.todo ensures RestOk(tasks, after, i) {
      assert RestOk(tasks, st, i);
    }
  }

  // ----- the whole run -----

  /** How many of the sweeps polled future `i`. */
  ghost function Polled(sweeps: seq<set<nat>>, i: nat): nat {
    if sweeps == [] then 0
    else Polled(sweeps[..|sweeps| - 1], i) + if i in sweeps[|sweeps| - 1] then 1 else 0
  }

  /** The futures not ready after these sweeps. */
  ghost function Unfinished<T>(tasks: seq<Task<T>>, sweeps: seq<set<nat>>): set<nat> {
    set i | 0 <= i < |tasks| && Polled(sweeps, i) < tasks[i].needed
  }

  /** The sweep polls as many unfinished futures as the cap and their number
      allow, and of those the first ones listed. */
  ghost predicate PollsTheFirst(swept: set<nat>, unfinished: set<nat>, cap: nat) {
    && swept <= unfinished && |swept| == Min(cap, |unfinished|) > 0
    && (forall i, j :: i in swept && j in unfinished && j < i ==> j in swept)
  }

  ghost predicate Follows<T>(tasks: seq<Task<T>>, st: State<T>, sweeps: seq<set<nat>>) {
    |st.polls| == |tasks| && forall i :: 0 <= i < |tasks| ==> st.polls[i] == Polled(sweeps, i)
  }

  /** Before a sweep a future is in flight exactly when it is started and not
      finished, and nothing beyond has been polled. */
  lemma InFlightIs<T>(tasks: seq<Task<T>>, st: State<T>, sp: Split, i: nat)
    requires Inv(tasks, st, sp) && st.position == 0 && i < |tasks|
    ensures i in sp.todo <==> i < st.next && st.polls[i] < tasks[i].needed
    ensures i >= st.next ==> st.polls[i] == 0
  {
    InFlightHasSlot(st.running, st.position, sp);
    if i in sp.todo {
      var k :| 0 <= k < |st.running| && st.running[k].index == i;
      assert SlotOk(tasks, st, st.running[k]);
    } else {
      assert RestOk(tasks, st, i);
    }
  }

  lemma InFlightExists<T>(tasks: seq<Task<T>>, st: State<T>, sp: Split, i: nat)
    requires Inv(tasks, st, sp) && i in sp.todo
    ensures i < st.next <= |tasks|
  {
    InFlightHasSlot(st.running, st.position, sp);
    var k :| 0 <= k < |st.running| && st.running[k].index == i;
    assert SlotOk(tasks, st, st.running[k]);
  }

  lemma InFlightIsUnfinished<T>(tasks: seq<Task<T>>, st: State<T>, sp: Split, sweeps: seq<set<nat>>)
    requires Inv(tasks, st, sp) && st.position == 0 && Follows(tasks, st, sweeps)
    requires forall i :: 0 <= i < |tasks| ==> tasks[i].needed >= 1
    ensures Unfinished(tasks, sweeps) == sp.todo + Span(st.next, |tasks|) && sp.todo !! Span(st.next, |tasks|)
  {
    forall i | 0 <= i < |tasks| ensures i in Unfinished(tasks, sweeps) <==> i in sp.todo + Span(st.next, |tasks|) {
      InFlightIs(tasks, st, sp, i);
    }
    forall i | i in sp.todo ensures i < st.next <= |tasks| { InFlightExists(tasks, st, sp, i); }
  }

  /** Once the free places are filled, the futures in flight are the first of the
      unfinished ones. */
  lemma FilledSweep<T>(tasks: seq<Task<T>>, cap: nat, st: State<T>, sp: Split, sweeps: seq<set<nat>>)
    requires Inv(tasks, st, sp) && st.position == 0 && Follows(tasks, st, sweeps)
    requires forall i :: 0 <= i < |tasks| ==> tasks[i].needed >= 1
    requires |st.running| == Min(cap, |st.running| + |tasks| - st.next) > 0
    ensures PollsTheFirst(sp.todo, Unfinished(tasks, sweeps), cap)
  {
    InFlightIsUnfinished(tasks, st, sp, sweeps);
    var unfinished := Unfinished(tasks, sweeps);
    assert |unfinished| == |sp.todo| + |Span(st.next, |tasks|)| && |sp.todo| == |st.running|;
    forall i, j | i in sp.todo && j in unfinished && j < i ensures j in sp.todo { InFlightExists(tasks, st, sp, i); }
  }

  lemma SweepFollows(before: seq<nat>, after: seq<nat>, sweeps: seq<set<nat>>, swept: set<nat>)
    requires |before| == |after| && forall i :: 0 <= i < |before| ==> before[i] == Polled(sweeps, i)
    requires forall i :: 0 <= i < |after| ==> after[i] == before[i] + if i in swept then 1 else 0
    ensures forall i :: 0 <= i < |after| ==> after[i] == Polled(sweeps + [swept], i)
  {
    assert (sweeps + [swept])[..|sweeps|] == sweeps;
  }

  /** Every sweep so far polled the first unfinished futures. */
  ghost predicate Orderly<T>(tasks: seq<Task<T>>, cap: nat, sweeps: seq<set<nat>>) {
    forall k :: 0 <= k < |sweeps| ==> PollsTheFirst(sweeps[k], Unfinished(tasks, sweeps[..k]), cap)
  }

  lemma OneMoreSweep<T>(tasks: seq<Task<T>>, cap: nat, sweeps: seq<set<nat>>, swept: set<nat>)
    requires Orderly(tasks, cap, sweeps) && PollsTheFirst(swept, Unfinished(tasks, sweeps), cap)
    ensures Orderly(tasks, cap, sweeps + [swept])
  {
    var more := sweeps + [swept];
    forall k | 0 <= k < |more| ensures PollsTheFirst(more[k], Unfinished(tasks, more[..k]), cap) {
      assert more[..k] == if k < |sweeps| then sweeps[..k] else sweeps;
    }
  }

  /** Every output exactly once and in input order; every future polled exactly
      until it is ready; and each sweep polls the first unfinished futures, as many
      as the limit allows and never more. */
  method Join<T>(tasks: seq<Task<T>>, limit: nat) returns (outputs: seq<T>, ghost sweeps: seq<set<nat>>)
    requires forall i :: 0 <= i < |tasks| ==> tasks[i].needed >= 1
    ensures |outputs| == |tasks| && forall i :: 0 <= i < |tasks| ==> outputs[i] == tasks[i].output
    ensures forall i :: 0 <= i < |tasks| ==> Polled(sweeps, i) == tasks[i].needed
    ensures Orderly(tasks, Max(limit, 1), sweeps)
  {
    var cap := Max(limit, 1);
    var st: State<T> := State([], 0, seq(|tasks|, i => None), seq(|tasks|, i => 0), 0);
    ghost var sp := Split({}, {});
    sweeps := [];
    while st.next < |tasks| || st.running != []
      invariant Inv(tasks, st, sp) && st.position == 0 && |st.running| <= cap
      invariant Follows(tasks, st, sweeps) && Orderly(tasks, cap, sweeps)
      decreases TotalLeft(tasks, st.polls)
    {
      PollsWithinNeed(tasks, st, sp);
      st, sp := StartNext(tasks, cap, st, sp);
      FilledSweep(tasks, cap, st, sp, sweeps);
      ghost var before, swept := st.polls, sp.todo;
      st, sp := Sweep(tasks, st, sp);
      OneMoreSweep(tasks, cap, sweeps, swept);
      SweepFollows(before, st.polls, sweeps, swept);
      sweeps := sweeps + [swept];
    }
    assert sp.todo == {};
    var slots := st.outputs;
    forall i | 0 <= i < |tasks| ensures slots[i] == Some(tasks[i].output) && st.polls[i] == tasks[i].needed {
      assert RestOk(tasks, st, i);
    }
    outputs := seq(|slots|, i requires 0 <= i < |slots| && slots[i].Some? => slots[i].value);
  }
}
