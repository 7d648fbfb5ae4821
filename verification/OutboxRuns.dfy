/** Delivery workers sharing the outbox: what every interleaving of claims and
    completions keeps (crates/gateway-application/src/outbox.rs,
    crates/gateway-storage/src/outbox.rs). */
module OutboxRuns {
  import opened Clock
  import opened Common
  import opened OutboxRows

  /** A claimed event as the worker received it. */
  datatype Event = Event(id: Id, merchant: Option<Id>, target: Option<Id>, attempts: nat, floor: nat)

  function EventOf(id: Id, r: Row): Event { Event(id, r.merchant, r.target, r.attempts, r.floor) }

  /** What sending to all of an event's endpoints came to. */
  datatype Answer = Accepted | NotAccepted | Fault

  // ----- one event's outcome -----

  const BACKOFF_CAP: int := 6 * 60 * 60

  function Doubled(n: nat): nat { if n == 0 then 1 else 2 * Doubled(n - 1) }

  /** `backoff_for`, in seconds. */
  function Backoff(used: int): int {
    Min(60 * Doubled(Max(1, Min(8, used)) - 1), BACKOFF_CAP)
  }

  /** One minute, doubling with every attempt, for eight attempts; the six-hour
      cap is never reached, the longest wait being 128 minutes. */
  lemma BackoffDoubles(used: int)
    ensures used <= 1 ==> Backoff(used) == 60
    ensures 1 <= used < 8 ==> Backoff(used + 1) == 2 * Backoff(used)
    ensures used >= 8 ==> Backoff(used) == 7680
    ensures 60 <= Backoff(used) <= 7680 < BACKOFF_CAP
  {
    assert Doubled(1) == 2 && Doubled(2) == 4 && Doubled(3) == 8 && Doubled(4) == 16;
    assert Doubled(5) == 32 && Doubled(6) == 64 && Doubled(7) == 128;
  }

  /** Attempts made since the last redelivery, this one included. */
  function Used(e: Event): int { e.attempts - e.floor + 1 }

  /** How `deliver_merchant` completes an event; nothing when the work failed
      before a completion could be written. */
  function CompletionFor(e: Event, listening: bool, answer: Answer, maxAttempts: nat, at: Instant): Option<Completion> {
    if answer.Fault? then None
    else if e.merchant.None? then Some(Bury(at, "webhook_event_without_merchant"))
    else if !listening then Some(Bury(at, if e.target.Some? then "redelivery_target_inactive" else "no_active_endpoint"))
    else if answer.Accepted? then Some(Deliver(at))
    else if Used(e) >= maxAttempts then Some(Bury(at, "delivery_attempts_exhausted"))
    else
      var next := CheckedLater(at, Backoff(Used(e)));
      if next.None? then None else Some(Retry(next.value, "delivery_failed"))
  }

  // ----- runs -----

  datatype Task = Task(worker: string, event: Event, until: Instant)

  datatype System = System(rows: Rows, tasks: set<Task>)

  datatype Step =
    | Enqueue(id: Id, merchant: Option<Id>, target: Option<Id>)
    | ClaimDue(worker: string, limit: nat, perMerchant: nat)
    | Finish(task: Task, listening: bool, answer: Answer)

  const VISIBILITY_SECONDS: int := 300

  function TasksFor(worker: string, rows: Rows, taken: set<Id>, until: Instant): set<Task>
    requires taken <= rows.Keys
  {
    set id | id in taken :: Task(worker, EventOf(id, rows[id]), until)
  }

  function Claimed(sys: System, worker: string, limit: nat, perMerchant: nat, at: Instant): System {
    var until := CheckedLater(at, VISIBILITY_SECONDS);
    if until.None? then sys
    else
      var taken := Chosen(sys.rows, at, limit, perMerchant);
      System(ClaimRows(sys.rows, taken, Claim(worker, until.value)),
             sys.tasks + TasksFor(worker, sys.rows, taken, until.value))
  }

  function Finished(sys: System, task: Task, listening: bool, answer: Answer, at: Instant, maxAttempts: nat): System {
    if task !in sys.tasks then sys
    else
      var c := CompletionFor(task.event, listening, answer, maxAttempts, at);
      System(if c.Some? then CompleteRow(sys.rows, task.event.id, c.value) else sys.rows, sys.tasks - {task})
  }

  function Apply(sys: System, step: Step, at: Instant, maxAttempts: nat): System {
    match step
    case Enqueue(id, merchant, target) =>
      if id in sys.rows then sys
      else sys.(rows := sys.rows[id := Row(merchant, target, 0, 0, at, None, None, None, None)])
    case ClaimDue(worker, limit, perMerchant) => Claimed(sys, worker, limit, perMerchant, at)
    case Finish(task, listening, answer) => Finished(sys, task, listening, answer, at, maxAttempts)
  }

  type Timed = seq<(Step, Instant)>

  function Run(sys: System, run: Timed, maxAttempts: nat): System
    decreases |run|
  {
    if run == [] then sys else Run(Apply(sys, run[0].0, run[0].1, maxAttempts), run[1..], maxAttempts)
  }

  /** An event enters once, live, due at once, with no attempt made. */
  lemma EnqueueSays(sys: System, id: Id, merchant: Option<Id>, target: Option<Id>, at: Instant, maxAttempts: nat)
    ensures var next := Apply(sys, Enqueue(id, merchant, target), at, maxAttempts);
            && next.tasks == sys.tasks
            && (id in sys.rows ==> next.rows == sys.rows)
            && (id !in sys.rows ==>
                  && id in next.rows && next.rows == sys.rows[id := next.rows[id]] && Live(next.rows[id]) && Due(next.rows[id], at)
                  && next.rows[id].merchant == merchant && next.rows[id].target == target
                  && Used(EventOf(id, next.rows[id])) == 1 && next.rows[id].attempts == 0)
  {}

  /** No task is held beyond its window on a row that is due for a claim. */
  predicate OnTime(sys: System, at: Instant) {
    forall task :: task in sys.tasks ==>
      at <= task.until || (task.event.id in sys.rows && at < sys.rows[task.event.id].availableAt)
  }

  /** Every claim of the run comes on time. */
  predicate Prompt(sys: System, run: Timed, maxAttempts: nat)
    decreases |run|
  {
    run == [] ||
    ((run[0].0.ClaimDue? ==> OnTime(sys, run[0].1)) && Prompt(Apply(sys, run[0].0, run[0].1, maxAttempts), run[1..], maxAttempts))
  }

  // ----- one worker at a time -----

  predicate Holds(rows: Rows, task: Task) {
    && task.event.id in rows && Live(rows[task.event.id])
    && rows[task.event.id].claim == Some(Claim(task.worker, task.until))
    && task.event == EventOf(task.event.id, rows[task.event.id])
  }

  /** Every task in flight is the one its row's claim names. */
  predicate Exclusive(sys: System) {
    forall task :: task in sys.tasks ==> Holds(sys.rows, task)
  }

  /** Over every prompt run, no event is ever in the hands of two workers. */
  lemma {:induction false} OneWorkerAtATime(sys: System, run: Timed, maxAttempts: nat)
    requires Exclusive(sys) && Prompt(sys, run, maxAttempts)
    ensures Exclusive(Run(sys, run, maxAttempts))
    ensures forall a, b :: (a in Run(sys, run, maxAttempts).tasks && b in Run(sys, run, maxAttempts).tasks
                            && a.event.id == b.event.id) ==> a == b
    decreases |run|
  {
    if run != [] {
      OneWorkerAtATime(Apply(sys, run[0].0, run[0].1, maxAttempts), run[1..], maxAttempts);
    }
  }

  /** Promptness is needed: once a task outlives its window, the next claim with
      room for everything due hands its event to a second worker. */
  lemma LateTaskIsSharedOut(sys: System, task: Task, worker: string, limit: nat, perMerchant: nat, at: Instant)
    requires Exclusive(sys) && task in sys.tasks && task.until < at && sys.rows[task.event.id].availableAt <= at
    requires |DueSet(sys.rows, at)| <= limit && |DueSet(sys.rows, at)| <= perMerchant
    requires worker != task.worker && CheckedLater(at, VISIBILITY_SECONDS).Some?
    ensures exists other :: other in Claimed(sys, worker, limit, perMerchant, at).tasks
                            && other.event.id == task.event.id && other.worker != task.worker
    ensures task in Claimed(sys, worker, limit, perMerchant, at).tasks
  {
    ClaimIsComplete(sys.rows, at, limit, perMerchant);
    var id := task.event.id;
    assert Holds(sys.rows, task);
    assert Task(worker, EventOf(id, sys.rows[id]), CheckedLater(at, VISIBILITY_SECONDS).value)
           in Claimed(sys, worker, limit, perMerchant, at).tasks;
  }

  lemma OnTimeClaimIsSafe(sys: System, worker: string, limit: nat, perMerchant: nat, at: Instant)
    requires Exclusive(sys) && OnTime(sys, at)
    ensures Exclusive(Claimed(sys, worker, limit, perMerchant, at))
  {
    var next := Claimed(sys, worker, limit, perMerchant, at);
    forall task | task in next.tasks ensures Holds(next.rows, task) {
      if task in sys.tasks { assert Holds(sys.rows, task) && task.event.id !in DueSet(sys.rows, at); }
    }
  }

  /** Exactly when a claim is safe: whoever claims and however much it may take,
      every event stays in one pair of hands, if and only if nobody holds a task
      beyond its window on a row that is due. */
  lemma ClaimIsSafeExactly(sys: System, at: Instant)
    requires Exclusive(sys) && CheckedLater(at, VISIBILITY_SECONDS).Some?
    ensures (forall worker: string, limit: nat, perMerchant: nat :: Exclusive(Claimed(sys, worker, limit, perMerchant, at)))
            <==> OnTime(sys, at)
  {
    if OnTime(sys, at) {
      forall worker: string, limit: nat, perMerchant: nat ensures Exclusive(Claimed(sys, worker, limit, perMerchant, at)) {
        OnTimeClaimIsSafe(sys, worker, limit, perMerchant, at);
      }
    } else {
      var task :| task in sys.tasks && task.until < at && !(task.event.id in sys.rows && at < sys.rows[task.event.id].availableAt);
      assert Holds(sys.rows, task);
      var room := |DueSet(sys.rows, at)|;
      ClaimIsComplete(sys.rows, at, room, room);
      assert !Holds(Claimed(sys, "", room, room, at).rows, task);
    }
  }

  // ----- delivered and dead-lettered are final -----

  /** Over every run, prompt or not: a finished row never changes again. */
  lemma {:induction false} FinalRowsStay(sys: System, run: Timed, maxAttempts: nat, id: Id)
    requires id in sys.rows && !Live(sys.rows[id])
    ensures id in Run(sys, run, maxAttempts).rows && Run(sys, run, maxAttempts).rows[id] == sys.rows[id]
    decreases |run|
  {
    if run != [] {
      FinalRowsStay(Apply(sys, run[0].0, run[0].1, maxAttempts), run[1..], maxAttempts, id);
    }
  }

  // ----- an endpoint that always fails -----

  /** The step completes a delivery cycle of `id`. */
  predicate Completes(sys: System, step: Step, at: Instant, maxAttempts: nat, id: Id) {
    && step.Finish? && step.task in sys.tasks && step.task.event.id == id
    && CompletionFor(step.task.event, step.listening, step.answer, maxAttempts, at).Some?
  }

  function Cycles(sys: System, run: Timed, maxAttempts: nat, id: Id): nat
    decreases |run|
  {
    if run == [] then 0
    else
      (if Completes(sys, run[0].0, run[0].1, maxAttempts, id) then 1 else 0)
      + Cycles(Apply(sys, run[0].0, run[0].1, maxAttempts), run[1..], maxAttempts, id)
  }

  /** Somebody listens, and no delivery of `id` is ever accepted. */
  predicate AlwaysFails(run: Timed, id: Id) {
    forall i :: 0 <= i < |run| && run[i].0.Finish? && run[i].0.task.event.id == id ==>
      run[i].0.listening && !run[i].0.answer.Accepted?
  }

  /** `k` cycles above the floor: dead exactly when the ceiling is reached. */
  predicate Failed(rows: Rows, id: Id, maxAttempts: nat, k: nat) {
    && id in rows && rows[id].merchant.Some? && k <= maxAttempts
    && rows[id].attempts == rows[id].floor + k && rows[id].deliveredAt.None?
    && (rows[id].deadAt.Some? <==> k == maxAttempts)
  }

  /** Over every prompt run, an event whose deliveries always fail is
      dead-lettered on exactly its `maxAttempts`-th completed cycle above the
      floor, and never completes another. */
  lemma {:induction false} DeadLetteredOnTheLastAttempt(sys: System, run: Timed, maxAttempts: nat, id: Id, k: nat)
    requires Exclusive(sys) && Prompt(sys, run, maxAttempts) && AlwaysFails(run, id)
    requires Failed(sys.rows, id, maxAttempts, k)
    ensures Failed(Run(sys, run, maxAttempts).rows, id, maxAttempts, k + Cycles(sys, run, maxAttempts, id))
    decreases |run|
  {
    if run != [] {
      var step, at, rest := run[0].0, run[0].1, run[1..];
      assert forall i :: 0 <= i < |rest| ==> rest[i] == run[i + 1];
      DeadLetteredOnTheLastAttempt(Apply(sys, step, at, maxAttempts), rest, maxAttempts, id,
                                   k + if Completes(sys, step, at, maxAttempts, id) then 1 else 0);
    }
  }
}
