/** Safety of the money tables over every run: settlement decisions taken on a
    snapshot and committed later, in any interleaving with honors, rejections,
    dispositions, sweeps, cancellations and new rows. */
module LedgerRuns {
  import opened Common
  import opened Money
  import S = Settlement
  import opened Ledger
  import opened LedgerInvariant

  /** A decided command on its way to the settlement transaction, with the
      attempt's total as the snapshot showed it. */
  datatype InFlight = InFlight(command: Command, seen: nat)

  datatype System = System(books: Books, inFlight: seq<InFlight>)

  /** What the worker learns besides the money tables. */
  datatype Findings = Findings(fiatMinor: int, groups: nat, hadOwnNode: bool, risk: S.Risk, late: bool, tiers: seq<S.Tier>)

  /** Rows that appear or change around the money path. */
  datatype WorldMove =
    | NewIntent(intent: Id, merchant: Id)
    | NewAttempt(attempt: Id, attemptRow: AttemptRow)
    | NewTransfer(transfer: Id, transferRow: TransferRow)
    | NewFinality(transfer: Id, state: S.TransferState)
    | SweepAttempt(attempt: Id)
    | CancelIntent(intent: Id)

  /** Decisions a person takes, and the one that hands money to a person. */
  datatype DeskMove =
    | LeaveUnresolved(transfer: Id)
    | HonorTransfer(honor: HonorRequest)
    | RejectTransfer(transfer: Id)
    | DisposeRemainder(transfer: Id, intent: Id, remainder: nat)

  datatype Step =
    | World(world: WorldMove)
    | Desk(desk: DeskMove)
    | TakeDecision(transfer: Id, attempt: Id, findings: Findings)
    | Commit(index: nat)

  /** `settle_match` up to the command: the attempt's snapshot and the findings
      go through `DecideSettlement`. A total beyond 256 bits does not parse. */
  function Decided(b: Books, t: Id, a: Id, f: Findings): Option<InFlight>
  {
    if t !in b.transfers || t !in b.finality || a !in b.attempts || Total(b.allocations, a) >= U256_LIMIT then None
    else
      var row := b.attempts[a];
      var e := S.Evidence(f.fiatMinor, row.expected, Total(b.allocations, a), b.transfers[t].amount,
                          b.finality[t], f.groups, f.hadOwnNode, f.risk, row.status, f.late);
      Some(InFlight(Command(t, a, row.intent, row.merchant, S.DecideSettlement(e, f.tiers).value), e.already))
  }

  function Turn(b: Books, w: WorldMove): Books {
    match w
    case NewIntent(i, m) => AddIntent(b, i, m)
    case NewAttempt(a, row) => AddAttempt(b, a, row)
    case NewTransfer(t, row) => AddTransfer(b, t, row)
    case NewFinality(t, state) => SetFinality(b, t, state)
    case SweepAttempt(a) => Sweep(b, a)
    case CancelIntent(i) => Cancel(b, i)
  }

  /** The service refuses an honor of nothing before any transaction. */
  function Manage(b: Books, m: DeskMove): Books {
    match m
    case LeaveUnresolved(t) => Unresolved(b, t)
    case HonorTransfer(h) => if h.allocate > 0 then Honor(b, h).0 else b
    case RejectTransfer(t) => Reject(b, t).0
    case DisposeRemainder(t, i, r) => Dispose(b, t, i, r).0
  }

  function Apply(s: System, step: Step): System {
    match step
    case World(w) => s.(books := Turn(s.books, w))
    case Desk(m) => s.(books := Manage(s.books, m))
    case TakeDecision(t, a, f) =>
      var d := Decided(s.books, t, a, f);
      if d.Some? then s.(inFlight := s.inFlight + [d.value]) else s
    case Commit(k) => if k < |s.inFlight| then s.(books := Settle(s.books, s.inFlight[k].command).0) else s
  }

  function Run(s: System, steps: seq<Step>): System
    decreases |steps|
  {
    if steps == [] then s else Run(Apply(s, steps[0]), steps[1..])
  }

  const EMPTY := System(Books(map[], map[], map[], map[], map[], map[], [], map[], {}, [], {}), [])

  // ----- rows never lose what identifies them -----

  ghost predicate Extends(b: Books, d: Books) {
    && b.transfers.Keys <= d.transfers.Keys
    && (forall t :: t in b.transfers ==> d.transfers[t] == b.transfers[t])
    && b.attempts.Keys <= d.attempts.Keys
    && (forall a :: a in b.attempts ==> d.attempts[a] == b.attempts[a].(status := d.attempts[a].status))
    && b.allocations <= d.allocations
  }

  lemma {:induction false} TotalGrows(rows: seq<Allocation>, more: seq<Allocation>, a: Id)
    requires rows <= more
    ensures Total(rows, a) <= Total(more, a)
  {
    if |rows| < |more| {
      TotalGrows(rows, more[..|more| - 1], a);
    } else {
      assert rows == more;
    }
  }

  lemma TurnExtends(b: Books, w: WorldMove)
    requires Inv(b)
    ensures Extends(b, Turn(b, w))
  {
    match w
    case NewIntent(i, m) => AddIntentIsWorld(b, i, m); WorldExtends(b, AddIntent(b, i, m));
    case NewAttempt(a, row) => AddAttemptIsWorld(b, a, row); WorldExtends(b, AddAttempt(b, a, row));
    case NewTransfer(t, row) =>
    case NewFinality(t, state) =>
    case SweepAttempt(a) => SweepIsWorld(b, a); WorldExtends(b, Sweep(b, a));
    case CancelIntent(i) => CancelIsWorld(b, i); WorldExtends(b, Cancel(b, i));
  }

  lemma WorldExtends(b: Books, d: Books)
    requires WorldStep(b, d)
    ensures Extends(b, d)
  {}

  lemma AllocationExtends(b: Books, c: Command)
    requires c.transfer in b.transfers && c.transfer in b.processing && S.MovesMoney(c.outcome)
    ensures AllocateAndFinish(b, c).Ok? ==> Extends(b, AllocateAndFinish(b, c).value.0)
  {}

  lemma HonorExtends(b: Books, h: HonorRequest)
    ensures Extends(b, Honor(b, h).0)
  {
    var plan := PlanHonor(b, h);
    if plan.Ok? {
      AllocationExtends(b, Command(h.transfer, h.attempt, h.intent, plan.value.merchant, plan.value.outcome));
    }
  }

  lemma ManageExtends(b: Books, m: DeskMove)
    ensures Extends(b, Manage(b, m))
  {
    if m.HonorTransfer? { HonorExtends(b, m.honor); }
  }

  lemma FinishExtends(b: Books, c: Command, kind: DecisionKind)
    requires c.transfer in b.processing
    ensures Extends(b, FinishWithoutMoney(b, c, kind))
  {}

  lemma SettleExtends(b: Books, c: Command)
    ensures Extends(b, Settle(b, c).0)
  {
    if c.transfer in b.transfers && c.transfer in b.processing {
      FinishExtends(b, c, DHeld);
      FinishExtends(b, c, DManualRequired);
      if S.MovesMoney(c.outcome) { AllocationExtends(b, c); }
    }
  }

  lemma StepExtends(s: System, step: Step)
    requires Inv(s.books)
    ensures Extends(s.books, Apply(s, step).books)
  {
    match step
    case World(w) => TurnExtends(s.books, w);
    case Desk(m) => ManageExtends(s.books, m);
    case TakeDecision(t, a, f) =>
    case Commit(k) => if k < |s.inFlight| { SettleExtends(s.books, s.inFlight[k].command); }
  }

  /** A command in flight still describes its rows, and its split is the one
      its snapshot called for. */
  ghost predicate InFlightOk(b: Books, f: InFlight) {
    && Sound(b, f.command)
    && f.seen <= Total(b.allocations, f.command.attempt)
    && (S.MovesMoney(f.command.outcome) ==>
          var expected := b.attempts[f.command.attempt].expected;
          && f.seen < expected
          && S.AllocatedBy(f.command.outcome) == Min(b.transfers[f.command.transfer].amount, expected - f.seen)
          && (S.Completes(f.command.outcome) <==> f.seen + S.AllocatedBy(f.command.outcome) == expected))
  }

  lemma InFlightPersists(b: Books, d: Books, f: InFlight)
    requires InFlightOk(b, f) && Extends(b, d)
    ensures InFlightOk(d, f)
  {
    TotalGrows(b.allocations, d.allocations, f.command.attempt);
  }

  ghost predicate SystemInv(s: System) {
    && Inv(s.books)
    && forall k :: 0 <= k < |s.inFlight| ==> InFlightOk(s.books, s.inFlight[k])
  }

  lemma TurnKeepsInv(b: Books, w: WorldMove)
    requires Inv(b)
    ensures Inv(Turn(b, w))
  {
    match w
    case NewIntent(i, m) => AddIntentIsWorld(b, i, m); WorldKeepsInv(b, AddIntent(b, i, m));
    case NewAttempt(a, row) => AddAttemptIsWorld(b, a, row); WorldKeepsInv(b, AddAttempt(b, a, row));
    case NewTransfer(t, row) => AddTransferKeepsInv(b, t, row);
    case NewFinality(t, state) => SideTablesKeepInv(b, SetFinality(b, t, state));
    case SweepAttempt(a) => SweepIsWorld(b, a); WorldKeepsInv(b, Sweep(b, a));
    case CancelIntent(i) => CancelIsWorld(b, i); WorldKeepsInv(b, Cancel(b, i));
  }

  lemma ManageKeepsInv(b: Books, m: DeskMove)
    requires Inv(b)
    ensures Inv(Manage(b, m))
  {
    match m
    case LeaveUnresolved(t) => if t in b.processing && b.processing[t].state.Pending? { MarkKeepsInv(b, t, Unmatched); }
    case HonorTransfer(h) => if h.allocate > 0 { HonorKeepsInv(b, h); }
    case RejectTransfer(t) => if Reject(b, t).1.Ok? { MarkKeepsInv(b, t, Resolved); }
    case DisposeRemainder(t, i, r) => DisposeKeepsInv(b, t, i, r);
  }

  lemma StepKeepsInv(s: System, step: Step)
    requires SystemInv(s)
    ensures Inv(Apply(s, step).books)
  {
    match step
    case World(w) => TurnKeepsInv(s.books, w);
    case Desk(m) => ManageKeepsInv(s.books, m);
    case TakeDecision(t, a, f) =>
    case Commit(k) =>
      if k < |s.inFlight| {
        assert InFlightOk(s.books, s.inFlight[k]);
        SettleKeepsInv(s.books, s.inFlight[k].command);
      }
  }

  /** A fresh decision is in order the moment it is taken. */
  lemma DecidedOk(b: Books, t: Id, a: Id, f: Findings)
    requires Inv(b) && Decided(b, t, a, f).Some?
    ensures InFlightOk(b, Decided(b, t, a, f).value) && Decided(b, t, a, f).value.seen == Total(b.allocations, a)
  {}

  lemma StepKeepsInFlight(s: System, step: Step, k: nat)
    requires SystemInv(s) && k < |Apply(s, step).inFlight|
    ensures InFlightOk(Apply(s, step).books, Apply(s, step).inFlight[k])
  {
    var r := Apply(s, step);
    if k < |s.inFlight| {
      StepExtends(s, step);
      assert r.inFlight[k] == s.inFlight[k];
      assert InFlightOk(s.books, s.inFlight[k]);
      InFlightPersists(s.books, r.books, s.inFlight[k]);
    } else {
      assert step.TakeDecision? && r.books == s.books;
      DecidedOk(s.books, step.transfer, step.attempt, step.findings);
    }
  }

  lemma StepKeepsSystemInv(s: System, step: Step)
    requires SystemInv(s)
    ensures SystemInv(Apply(s, step))
  {
    var r := Apply(s, step);
    StepKeepsInv(s, step);
    forall k | 0 <= k < |r.inFlight| ensures InFlightOk(r.books, r.inFlight[k]) {
      StepKeepsInFlight(s, step, k);
    }
  }

  /** Conservation over every run: each transfer spends at most what it carries
      and in at most one allocation, every money decision splits its transfer
      exactly, decisions and allocations agree, every intent is paid at most
      once and announced exactly once when it is. */
  lemma {:induction false} RunKeepsInv(s: System, steps: seq<Step>)
    requires SystemInv(s)
    ensures SystemInv(Run(s, steps))
    decreases |steps|
  {
    if steps != [] {
      StepKeepsSystemInv(s, steps[0]);
      RunKeepsInv(Apply(s, steps[0]), steps[1..]);
    }
  }

  lemma EveryRunIsSafe(steps: seq<Step>)
    ensures SystemInv(Run(EMPTY, steps))
  {
    RunKeepsInv(EMPTY, steps);
  }

  // ----- which step allocates, and to whom -----

  /** The step from `b` to `d` allocated `row`, and only that: to an attempt
      that was open, from a transfer nothing had been decided about. */
  ghost predicate OneRow(b: Books, d: Books, row: Allocation) {
    && row.attempt in b.attempts && AllocatableAttempt(b.attempts[row.attempt].status)
    && row.transfer in b.processing && Undecided(b.processing[row.transfer].state)
    && d.allocations == b.allocations + [row]
    && d.attempts.Keys == b.attempts.Keys
    && (forall a :: a in b.attempts && a != row.attempt ==> d.attempts[a] == b.attempts[a])
    && d.attempts[row.attempt] == b.attempts[row.attempt].(status := d.attempts[row.attempt].status)
  }

  /** The step from `b` to `d` allocated nothing and settled no attempt. */
  ghost predicate NoRow(b: Books, d: Books) {
    && d.allocations == b.allocations
    && b.attempts.Keys <= d.attempts.Keys
    && (forall a :: a in b.attempts ==>
          && d.attempts[a] == b.attempts[a].(status := d.attempts[a].status)
          && (d.attempts[a].status.Settled? <==> b.attempts[a].status.Settled?))
    && (forall a :: a in d.attempts && a !in b.attempts ==> !d.attempts[a].status.Settled?)
  }

  function RowOf(c: Command): Allocation { Allocation(c.attempt, c.transfer, S.AllocatedBy(c.outcome)) }

  lemma CommandRow(b: Books, c: Command)
    requires Inv(b) && Sound(b, c) && S.MovesMoney(c.outcome) && Undecided(b.processing[c.transfer].state)
    requires AllocateAndFinish(b, c).Ok?
    ensures OneRow(b, AllocateAndFinish(b, c).value.0, RowOf(c))
    ensures AllocateAndFinish(b, c).value.0.attempts[c.attempt].status.Settled? <==> S.Completes(c.outcome)
  {
    AllocationOutcomes(b, c);
    AllocationShape(b, c);
  }

  /** The settlement transaction answers with a money record exactly when it
      allocated its command's row. */
  lemma SettleRow(b: Books, c: Command)
    requires Inv(b) && Sound(b, c)
    ensures var r := Settle(b, c);
            if b.processing[c.transfer].state.Pending? && S.MovesMoney(c.outcome) && AllocateAndFinish(b, c).Ok?
            then && r.1 == Ok(RecordOf(c.outcome)) && OneRow(b, r.0, RowOf(c))
                 && (r.0.attempts[c.attempt].status.Settled? <==> S.Completes(c.outcome))
            else NoRow(b, r.0) && r.1.Ok? && r.1.value in {RAlreadyProcessed, RHeld, RManualRequired}
  {
    if b.processing[c.transfer].state.Pending? && S.MovesMoney(c.outcome) {
      AllocationOutcomes(b, c);
      if AllocateAndFinish(b, c).Ok? { CommandRow(b, c); }
    }
  }

  function HonorCommand(b: Books, h: HonorRequest): Command
    requires PlanHonor(b, h).Ok?
  {
    Command(h.transfer, h.attempt, h.intent, PlanHonor(b, h).value.merchant, PlanHonor(b, h).value.outcome)
  }

  /** The step from `b` to `d` allocated the least of what is owed and what the
      transfer carries, and settled the attempt if that was all it was owed. */
  ghost predicate HonorPaid(b: Books, d: Books, h: HonorRequest) {
    && OneRow(b, d, Allocation(h.attempt, h.transfer, h.allocate)) && h.transfer in b.transfers
    && var owed := b.attempts[h.attempt].expected - Total(b.allocations, h.attempt);
    && h.allocate == Min(owed, b.transfers[h.transfer].amount)
    && (d.attempts[h.attempt].status.Settled? <==> h.allocate == owed)
  }

  /** An honor either changes nothing or pays. */
  lemma HonorRow(b: Books, h: HonorRequest)
    requires Inv(b) && h.allocate > 0
    ensures var r := Honor(b, h); if r.1.Err? then r.0 == b else HonorPaid(b, r.0, h)
  {
    if PlanHonor(b, h).Ok? {
      HonorIsSound(b, h);
      HonorPlanSplit(b, h);
      var c := HonorCommand(b, h);
      AllocationOutcomes(b, c);
      if AllocateAndFinish(b, c).Ok? { CommandRow(b, c); }
    }
  }

  /** What a plan says about the amounts. */
  lemma HonorPlanSplit(b: Books, h: HonorRequest)
    requires PlanHonor(b, h).Ok? && b.processing[h.transfer].spent == 0
    ensures var owed := b.attempts[h.attempt].expected - Total(b.allocations, h.attempt);
            && h.allocate == Min(owed, b.transfers[h.transfer].amount)
            && (S.Completes(PlanHonor(b, h).value.outcome) <==> h.allocate == owed)
  {}

  lemma WorldNoRow(b: Books, d: Books)
    requires WorldStep(b, d)
    ensures NoRow(b, d)
  {}

  lemma TurnNoRow(b: Books, w: WorldMove)
    requires Inv(b)
    ensures NoRow(b, Turn(b, w))
  {
    match w
    case NewIntent(i, m) => AddIntentIsWorld(b, i, m); WorldNoRow(b, AddIntent(b, i, m));
    case NewAttempt(a, row) => AddAttemptIsWorld(b, a, row); WorldNoRow(b, AddAttempt(b, a, row));
    case NewTransfer(t, row) =>
    case NewFinality(t, state) =>
    case SweepAttempt(a) => SweepIsWorld(b, a); WorldNoRow(b, Sweep(b, a));
    case CancelIntent(i) => CancelIsWorld(b, i); WorldNoRow(b, Cancel(b, i));
  }

  lemma DeskNoRow(b: Books, m: DeskMove)
    requires !m.HonorTransfer?
    ensures NoRow(b, Manage(b, m))
  {}

  ghost predicate AtMostOneRow(b: Books, d: Books) {
    NoRow(b, d) || (|d.allocations| == |b.allocations| + 1 && OneRow(b, d, d.allocations[|b.allocations|]))
  }

  /** Every step allocates at most one row, and only to an open attempt from an
      undecided transfer. */
  lemma StepRow(s: System, step: Step)
    requires SystemInv(s)
    ensures AtMostOneRow(s.books, Apply(s, step).books)
  {
    match step
    case World(w) => TurnNoRow(s.books, w);
    case Desk(m) =>
      if m.HonorTransfer? {
        if m.honor.allocate > 0 { HonorRow(s.books, m.honor); }
      } else {
        DeskNoRow(s.books, m);
      }
    case TakeDecision(t, a, f) =>
    case Commit(k) =>
      if k < |s.inFlight| {
        assert InFlightOk(s.books, s.inFlight[k]);
        SettleRow(s.books, s.inFlight[k].command);
      }
  }

  /** A settled attempt stays settled and its total never changes again: an
      attempt completes at most once, in every run, stale or not. */
  lemma {:induction false} SettledIsFinal(s: System, steps: seq<Step>, a: Id)
    requires SystemInv(s) && a in s.books.attempts && s.books.attempts[a].status.Settled?
    ensures var d := Run(s, steps).books;
            && a in d.attempts && d.attempts[a].status.Settled?
            && Total(d.allocations, a) == Total(s.books.allocations, a)
    decreases |steps|
  {
    if steps != [] {
      SettledStays(s, steps[0], a);
      StepKeepsSystemInv(s, steps[0]);
      SettledIsFinal(Apply(s, steps[0]), steps[1..], a);
    }
  }

  lemma SettledStays(s: System, step: Step, a: Id)
    requires SystemInv(s) && a in s.books.attempts && s.books.attempts[a].status.Settled?
    ensures var d := Apply(s, step).books;
            && a in d.attempts && d.attempts[a].status.Settled?
            && Total(d.allocations, a) == Total(s.books.allocations, a)
  {
    StepRow(s, step);
    RowSparesSettled(s.books, Apply(s, step).books, a);
  }

  lemma RowSparesSettled(b: Books, d: Books, a: Id)
    requires AtMostOneRow(b, d) && a in b.attempts && b.attempts[a].status.Settled?
    ensures a in d.attempts && d.attempts[a].status.Settled? && Total(d.allocations, a) == Total(b.allocations, a)
  {
    if !NoRow(b, d) { AppendRow(b.allocations, d.allocations[|b.allocations|]); }
  }
}
