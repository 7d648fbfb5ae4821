/** The merchants of one pass run side by side: in whatever order their events are
    handled, a pass ends with the rows of `OutboxDelivery.PassRows`
    (crates/gateway-application/src/outbox.rs). */
module OutboxInterleaving {
  import opened Common
  import opened OutboxRows
  import opened OutboxRuns
  import opened OutboxDelivery

  /** An event to handle, and how its work ends: not at all when it fails. */
  datatype Job = Job(id: Id, fate: Option<Completion>)

  type Queues = seq<seq<Job>>

  /** The rows, and how many jobs of each queue have been handled. */
  datatype Progress = Progress(rows: Rows, handled: seq<nat>)

  predicate Fits(p: Progress, queues: Queues) {
    |p.handled| == |queues| && forall i :: 0 <= i < |queues| ==> p.handled[i] <= |queues[i]|
  }

  /** The `i`-th queue has a next job and its work does not fail. */
  predicate CanGo(p: Progress, queues: Queues, i: nat)
    requires Fits(p, queues) && i < |queues|
  {
    p.handled[i] < |queues[i]| && queues[i][p.handled[i]].fate.Some?
  }

  /** The next job of the `i`-th queue; a queue whose work failed stays put. */
  function Advance(p: Progress, queues: Queues, i: nat): (r: Progress)
    requires Fits(p, queues)
    ensures Fits(r, queues)
  {
    if i >= |queues| || !CanGo(p, queues, i) then p
    else
      var job := queues[i][p.handled[i]];
      Progress(CompleteRow(p.rows, job.id, job.fate.value), p.handled[i := p.handled[i] + 1])
  }

  function Interleave(p: Progress, queues: Queues, schedule: seq<nat>): (r: Progress)
    requires Fits(p, queues)
    ensures Fits(r, queues)
    decreases |schedule|
  {
    if schedule == [] then p else Interleave(Advance(p, queues, schedule[0]), queues, schedule[1..])
  }

  function Started(rows: Rows, queues: Queues): (r: Progress)
    ensures Fits(r, queues)
  {
    Progress(rows, seq(|queues|, i => 0))
  }

  /** Every queue is through, or its next job's work fails. */
  predicate Ended(p: Progress, queues: Queues)
    requires Fits(p, queues)
  {
    forall i :: 0 <= i < |queues| ==> !CanGo(p, queues, i)
  }

  // ----- how far one queue gets -----

  /** The jobs before the first one whose work fails. */
  function Reach(queue: seq<Job>): (n: nat)
    ensures n <= |queue|
    ensures forall k :: 0 <= k < n ==> queue[k].fate.Some?
    ensures n < |queue| ==> queue[n].fate.None?
  {
    if queue == [] then 0
    else
      var front := Reach(queue[..|queue| - 1]);
      if front == |queue| - 1 && queue[front].fate.Some? then front + 1 else front
  }

  /** A job's row once `n` jobs of its queue are handled. */
  function RowAfter(row: Row, queue: seq<Job>, k: nat, n: nat): Row
    requires k < |queue|
  {
    if k < n && queue[k].fate.Some? then Complete(row, queue[k].fate.value) else row
  }

  // ----- any interleaving -----

  /** No event is queued twice. */
  ghost predicate Unique(queues: Queues) {
    forall i, k, j, l :: (0 <= i < |queues| && 0 <= k < |queues[i]| && 0 <= j < |queues| && 0 <= l < |queues[j]|
                          && queues[i][k].id == queues[j][l].id) ==> i == j && k == l
  }

  ghost predicate Waits(queues: Queues, id: Id) {
    exists i, k :: 0 <= i < |queues| && 0 <= k < |queues[i]| && queues[i][k].id == id
  }

  ghost predicate JobOk(rows: Rows, p: Progress, queues: Queues, i: nat, k: nat)
    requires Fits(p, queues) && i < |queues| && k < |queues[i]|
  {
    var id := queues[i][k].id;
    id in rows && id in p.rows ==> p.rows[id] == RowAfter(rows[id], queues[i], k, p.handled[i])
  }

  /** Each queue has handled no more than it can, each row is as far as its queue,
      and no other row has changed. */
  ghost predicate Midway(rows: Rows, p: Progress, queues: Queues) {
    && Fits(p, queues) && p.rows.Keys == rows.Keys
    && (forall i :: 0 <= i < |queues| ==> p.handled[i] <= Reach(queues[i]))
    && (forall i, k :: 0 <= i < |queues| && 0 <= k < |queues[i]| ==> JobOk(rows, p, queues, i, k))
    && (forall id :: id in rows && !Waits(queues, id) ==> p.rows[id] == rows[id])
  }

  /** Handling a job leaves every other job's row alone. */
  lemma AdvanceKeepsJob(rows: Rows, p: Progress, queues: Queues, i: nat, j: nat, l: nat)
    requires Unique(queues) && Fits(p, queues) && i < |queues| && CanGo(p, queues, i)
    requires j < |queues| && l < |queues[j]| && JobOk(rows, p, queues, j, l)
    ensures JobOk(rows, Advance(p, queues, i), queues, j, l)
  {
    if j == i && l == p.handled[i] {
    } else {
      assert queues[j][l].id != queues[i][p.handled[i]].id;
    }
  }

  lemma AdvanceKeepsMidway(rows: Rows, p: Progress, queues: Queues, i: nat)
    requires Unique(queues) && Midway(rows, p, queues)
    ensures Midway(rows, Advance(p, queues, i), queues)
  {
    if i < |queues| && CanGo(p, queues, i) {
      var q := Advance(p, queues, i);
      assert Waits(queues, queues[i][p.handled[i]].id);
      forall j, l | 0 <= j < |queues| && 0 <= l < |queues[j]| ensures JobOk(rows, q, queues, j, l) {
        assert JobOk(rows, p, queues, j, l);
        AdvanceKeepsJob(rows, p, queues, i, j, l);
      }
    }
  }

  lemma {:induction false} InterleaveKeepsMidway(rows: Rows, p: Progress, queues: Queues, schedule: seq<nat>)
    requires Unique(queues) && Midway(rows, p, queues)
    ensures Midway(rows, Interleave(p, queues, schedule), queues)
    decreases |schedule|
  {
    if schedule != [] {
      AdvanceKeepsMidway(rows, p, queues, schedule[0]);
      InterleaveKeepsMidway(rows, Advance(p, queues, schedule[0]), queues, schedule[1..]);
    }
  }

  /** Once every queue has ended, each has got as far as it ever can. */
  lemma EndsAtReach(rows: Rows, p: Progress, queues: Queues, i: nat)
    requires Midway(rows, p, queues) && Ended(p, queues) && i < |queues|
    ensures p.handled[i] == Reach(queues[i])
  {
    assert !CanGo(p, queues, i);
  }

  // ----- one merchant after another -----

  function JobsOf(events: seq<Event>, w: World, maxAttempts: nat): (jobs: seq<Job>)
    ensures |jobs| == |events|
    ensures forall k :: 0 <= k < |events| ==> jobs[k] == Job(events[k].id, Fate(events[k], w, maxAttempts))
  {
    seq(|events|, k requires 0 <= k < |events| => Job(events[k].id, Fate(events[k], w, maxAttempts)))
  }

  function QueuesOf(groups: seq<Group>, w: World, maxAttempts: nat): (queues: Queues)
    ensures |queues| == |groups|
    ensures forall i :: 0 <= i < |groups| ==> queues[i] == JobsOf(groups[i].queue, w, maxAttempts)
  {
    seq(|groups|, i requires 0 <= i < |groups| => JobsOf(groups[i].queue, w, maxAttempts))
  }

  /** The jobs are these events, with the endpoints each of them meets. */
  ghost predicate Meets(jobs: seq<Job>, events: seq<Event>, endpoints: seq<Id>, w: World, maxAttempts: nat) {
    && |jobs| == |events|
    && forall k :: 0 <= k < |events| ==> jobs[k] == Job(events[k].id, FateOf(events[k], endpoints, w, maxAttempts))
  }

  lemma {:induction false} TallyReaches(jobs: seq<Job>, events: seq<Event>, endpoints: seq<Id>, w: World, maxAttempts: nat)
    requires Meets(jobs, events, endpoints, w, maxAttempts)
    ensures Tally(events, endpoints, w, maxAttempts).Ok? <==> Reach(jobs) == |jobs|
  {
    if events != [] { TallyReaches(jobs[..|jobs| - 1], events[..|events| - 1], endpoints, w, maxAttempts); }
  }

  /** What one queue does on its own, up to the first job that fails. */
  function Work(rows: Rows, jobs: seq<Job>): Rows {
    if jobs == [] then rows
    else
      var n := |jobs| - 1;
      var before := Work(rows, jobs[..n]);
      if Reach(jobs) == n + 1 then CompleteRow(before, jobs[n].id, jobs[n].fate.value) else before
  }

  lemma {:induction false} RewriteIsWork(rows: Rows, jobs: seq<Job>, events: seq<Event>, endpoints: seq<Id>, w: World, maxAttempts: nat)
    requires Meets(jobs, events, endpoints, w, maxAttempts)
    ensures Rewrite(rows, events, endpoints, w, maxAttempts) == Work(rows, jobs)
  {
    if events != [] {
      TallyReaches(jobs[..|jobs| - 1], events[..|events| - 1], endpoints, w, maxAttempts);
      RewriteIsWork(rows, jobs[..|jobs| - 1], events[..|events| - 1], endpoints, w, maxAttempts);
    }
  }

  predicate DistinctJobs(jobs: seq<Job>) {
    forall k, l :: 0 <= k < l < |jobs| ==> jobs[k].id != jobs[l].id
  }

  lemma {:induction false} WorkFrame(rows: Rows, jobs: seq<Job>, id: Id)
    requires id in rows && forall k :: 0 <= k < |jobs| ==> jobs[k].id != id
    ensures id in Work(rows, jobs) && Work(rows, jobs)[id] == rows[id]
  {
    if jobs != [] { WorkFrame(rows, jobs[..|jobs| - 1], id); }
  }

  /** It completes the rows of the jobs it reaches, only. */
  lemma {:induction false} WorkRow(rows: Rows, jobs: seq<Job>, k: nat)
    requires DistinctJobs(jobs) && k < |jobs| && jobs[k].id in rows
    ensures jobs[k].id in Work(rows, jobs) && Work(rows, jobs)[jobs[k].id] == RowAfter(rows[jobs[k].id], jobs, k, Reach(jobs))
  {
    var n := |jobs| - 1;
    if k < n {
      WorkRow(rows, jobs[..n], k);
    } else {
      WorkFrame(rows, jobs[..n], jobs[n].id);
    }
  }

  lemma MerchantRow(rows: Rows, g: Group, w: World, maxAttempts: nat, k: nat)
    requires OwnQueue(g) && k < |g.queue| && g.queue[k].id in rows
    ensures var after, jobs := MerchantRewrite(rows, g.merchant, g.queue, w, maxAttempts), JobsOf(g.queue, w, maxAttempts);
            g.queue[k].id in after && after[g.queue[k].id] == RowAfter(rows[g.queue[k].id], jobs, k, Reach(jobs))
  {
    var jobs := JobsOf(g.queue, w, maxAttempts);
    WorkRow(rows, jobs, k);
    if g.merchant.None? {
      RewriteIsWork(rows, jobs, g.queue, [], w, maxAttempts);
    } else if w.endpoints(g.merchant.value).Some? {
      RewriteIsWork(rows, jobs, g.queue, w.endpoints(g.merchant.value).value, w, maxAttempts);
    }
  }

  lemma OutcomeReaches(g: Group, w: World, maxAttempts: nat)
    requires OwnQueue(g) && g.queue != []
    ensures MerchantTally(g.merchant, g.queue, w, maxAttempts).Ok? <==> Reach(JobsOf(g.queue, w, maxAttempts)) == |g.queue|
  {
    var jobs := JobsOf(g.queue, w, maxAttempts);
    if g.merchant.None? {
      TallyReaches(jobs, g.queue, [], w, maxAttempts);
    } else if w.endpoints(g.merchant.value).Some? {
      TallyReaches(jobs, g.queue, w.endpoints(g.merchant.value).value, w, maxAttempts);
    } else {
      assert jobs[0].fate.None?;
    }
  }

  lemma {:induction false} PassRow(rows: Rows, groups: seq<Group>, w: World, maxAttempts: nat, i: nat, k: nat)
    requires Disjoint(groups) && i < |groups| && k < |groups[i].queue| && groups[i].queue[k].id in rows
    ensures var id, jobs := groups[i].queue[k].id, JobsOf(groups[i].queue, w, maxAttempts);
            && id in PassRows(rows, groups, w, maxAttempts)
            && PassRows(rows, groups, w, maxAttempts)[id] == RowAfter(rows[id], jobs, k, Reach(jobs))
  {
    var front, g := groups[..|groups| - 1], groups[|groups| - 1];
    var id := groups[i].queue[k].id;
    var before := PassRows(rows, front, w, maxAttempts);
    PassFrame(rows, front, w, maxAttempts);
    MerchantFrame(before, g, w, maxAttempts);
    assert Mentions(groups[i].queue, id);
    if i == |front| {
      assert !Queued(front, id);
      MerchantRow(before, g, w, maxAttempts, k);
    } else {
      assert front[i] == groups[i];
      PassRow(rows, front, w, maxAttempts, i, k);
      assert !Mentions(g.queue, id);
    }
  }

  lemma DisjointIsUnique(groups: seq<Group>, w: World, maxAttempts: nat)
    requires Disjoint(groups)
    ensures Unique(QueuesOf(groups, w, maxAttempts))
  {
    var queues: Queues := QueuesOf(groups, w, maxAttempts);
    forall i, k, j, l | 0 <= i < |queues| && 0 <= k < |queues[i]| && 0 <= j < |queues| && 0 <= l < |queues[j]|
                        && queues[i][k].id == queues[j][l].id
      ensures i == j && k == l
    {
      assert Mentions(groups[i].queue, groups[i].queue[k].id) && Mentions(groups[j].queue, groups[j].queue[l].id);
      assert OwnQueue(groups[i]);
    }
  }

  lemma EndedRow(rows: Rows, p: Progress, groups: seq<Group>, w: World, maxAttempts: nat, id: Id)
    requires Disjoint(groups) && id in rows
    requires Midway(rows, p, QueuesOf(groups, w, maxAttempts)) && Ended(p, QueuesOf(groups, w, maxAttempts))
    ensures id in PassRows(rows, groups, w, maxAttempts) && p.rows[id] == PassRows(rows, groups, w, maxAttempts)[id]
  {
    var queues: Queues := QueuesOf(groups, w, maxAttempts);
    PassFrame(rows, groups, w, maxAttempts);
    if Queued(groups, id) {
      var i :| 0 <= i < |groups| && Mentions(groups[i].queue, id);
      var k :| 0 <= k < |groups[i].queue| && groups[i].queue[k].id == id;
      PassRow(rows, groups, w, maxAttempts, i, k);
      assert JobOk(rows, p, queues, i, k);
      EndsAtReach(rows, p, queues, i);
    }
  }

  lemma EndedRows(rows: Rows, p: Progress, groups: seq<Group>, w: World, maxAttempts: nat)
    requires Disjoint(groups)
    requires Midway(rows, p, QueuesOf(groups, w, maxAttempts)) && Ended(p, QueuesOf(groups, w, maxAttempts))
    ensures p.rows == PassRows(rows, groups, w, maxAttempts)
  {
    PassFrame(rows, groups, w, maxAttempts);
    forall id | id in rows ensures p.rows[id] == PassRows(rows, groups, w, maxAttempts)[id] {
      EndedRow(rows, p, groups, w, maxAttempts, id);
    }
  }

  /** Whatever the schedule, once every merchant is through or has failed, the rows
      are those of running the merchants one after another, and each merchant has
      got exactly as far: through if and only if its outcome is a report. */
  lemma AnyInterleaving(rows: Rows, groups: seq<Group>, schedule: seq<nat>, w: World, maxAttempts: nat)
    requires Disjoint(groups)
    requires var queues := QueuesOf(groups, w, maxAttempts); Ended(Interleave(Started(rows, queues), queues, schedule), queues)
    ensures var queues := QueuesOf(groups, w, maxAttempts);
            var end := Interleave(Started(rows, queues), queues, schedule);
            && end.rows == PassRows(rows, groups, w, maxAttempts)
            && (forall i :: 0 <= i < |groups| && groups[i].queue != [] ==>
                  (Outcomes(groups, w, maxAttempts)[i].Ok? <==> end.handled[i] == |groups[i].queue|))
  {
    var queues: Queues := QueuesOf(groups, w, maxAttempts);
    var end := Interleave(Started(rows, queues), queues, schedule);
    DisjointIsUnique(groups, w, maxAttempts);
    InterleaveKeepsMidway(rows, Started(rows, queues), queues, schedule);
    EndedRows(rows, end, groups, w, maxAttempts);
    forall i | 0 <= i < |groups| && groups[i].queue != []
      ensures Outcomes(groups, w, maxAttempts)[i].Ok? <==> end.handled[i] == |groups[i].queue|
    {
      EndsAtReach(rows, end, queues, i);
      assert OwnQueue(groups[i]);
      OutcomeReaches(groups[i], w, maxAttempts);
    }
  }
}
