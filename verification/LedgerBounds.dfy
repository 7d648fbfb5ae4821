/** What an attempt may hold: at most what it expects, and settled exactly when it
    holds all of it. Over which runs that is true, exactly; and the runs of
    ordinary steps over which it is not. */
module LedgerBounds {
  import opened Common
  import opened Money
  import S = Settlement
  import opened Ledger
  import opened LedgerInvariant
  import opened LedgerRuns

  /** Every attempt holds at most what it expects, and is settled exactly when
      it holds all of it. */
  ghost predicate Bounded(b: Books) {
    forall a :: a in b.attempts ==> AttemptBounded(b, a)
  }

  ghost predicate AttemptBounded(b: Books, a: Id)
    requires a in b.attempts
  {
    && Total(b.allocations, a) <= b.attempts[a].expected
    && (b.attempts[a].status.Settled? <==> Total(b.allocations, a) == b.attempts[a].expected)
  }

  lemma {:induction false} UnknownAttempt(rows: seq<Allocation>, a: Id)
    requires forall i :: 0 <= i < |rows| ==> rows[i].attempt != a
    ensures Total(rows, a) == 0
  {
    if rows != [] { UnknownAttempt(rows[..|rows| - 1], a); }
  }

  lemma NoRowKeepsBounded(b: Books, d: Books)
    requires RowsOk(b) && Bounded(b) && NoRow(b, d)
    ensures Bounded(d)
  {
    forall a | a in d.attempts ensures AttemptBounded(d, a) {
      if a in b.attempts {
        assert AttemptBounded(b, a);
      } else {
        forall i | 0 <= i < |b.allocations| ensures b.allocations[i].attempt != a { assert RowOk(b, b.allocations[i]); }
        UnknownAttempt(b.allocations, a);
      }
    }
  }

  lemma OneRowKeepsBounded(b: Books, d: Books, row: Allocation)
    requires Bounded(b) && OneRow(b, d, row)
    requires Total(b.allocations, row.attempt) + row.amount <= b.attempts[row.attempt].expected
    requires d.attempts[row.attempt].status.Settled? <==>
               Total(b.allocations, row.attempt) + row.amount == b.attempts[row.attempt].expected
    ensures Bounded(d)
  {
    AppendRow(b.allocations, row);
    forall a | a in d.attempts ensures AttemptBounded(d, a) { assert AttemptBounded(b, a); }
  }

  // ----- which commits are safe -----

  /** The commit allocates its command's row: the transfer is still pending, and
      attempt and intent still take money. */
  ghost predicate Lands(b: Books, c: Command) {
    && c.transfer in b.transfers && c.transfer in b.processing && c.attempt in b.attempts && c.intent in b.intents
    && b.processing[c.transfer].state.Pending? && S.MovesMoney(c.outcome)
    && b.attempts[c.attempt].collector == b.transfers[c.transfer].collector
    && AllocatableAttempt(b.attempts[c.attempt].status) && PayableIntent(b.intents[c.intent].status)
  }

  lemma CommitRow(b: Books, c: Command)
    requires Inv(b) && Sound(b, c)
    ensures var d := Settle(b, c).0;
            if Lands(b, c)
            then OneRow(b, d, RowOf(c)) && (d.attempts[c.attempt].status.Settled? <==> S.Completes(c.outcome))
            else NoRow(b, d)
  {
    SettleRow(b, c);
    if b.processing[c.transfer].state.Pending? && S.MovesMoney(c.outcome) { AllocationOutcomes(b, c); }
  }

  /** The commit finds the attempt's total where its snapshot left it. */
  ghost predicate Fresh(s: System, k: nat)
    requires k < |s.inFlight|
  {
    Total(s.books.allocations, s.inFlight[k].command.attempt) == s.inFlight[k].seen
  }

  /** If the commit lands: one that completes its attempt is fresh, and any other
      still leaves something owed. */
  ghost predicate GoodCommit(s: System, k: nat)
    requires k < |s.inFlight|
  {
    var b, c := s.books, s.inFlight[k].command;
    Lands(b, c) ==>
      if S.Completes(c.outcome) then Fresh(s, k)
      else Total(b.allocations, c.attempt) + S.AllocatedBy(c.outcome) < b.attempts[c.attempt].expected
  }

  ghost predicate GoodStep(s: System, step: Step) {
    step.Commit? && step.index < |s.inFlight| ==> GoodCommit(s, step.index)
  }

  ghost predicate GoodRun(s: System, steps: seq<Step>)
    decreases |steps|
  {
    steps == [] || (GoodStep(s, steps[0]) && GoodRun(Apply(s, steps[0]), steps[1..]))
  }

  /** A commit keeps every attempt bounded if and only if it is good. */
  lemma CommitBoundedExactly(s: System, k: nat)
    requires SystemInv(s) && Bounded(s.books) && k < |s.inFlight|
    ensures Bounded(Settle(s.books, s.inFlight[k].command).0) <==> GoodCommit(s, k)
  {
    var b, c := s.books, s.inFlight[k].command;
    var d := Settle(b, c).0;
    assert InFlightOk(b, s.inFlight[k]);
    CommitRow(b, c);
    if !Lands(b, c) {
      NoRowKeepsBounded(b, d);
    } else if GoodCommit(s, k) {
      OneRowKeepsBounded(b, d, RowOf(c));
    } else {
      AppendRow(b.allocations, RowOf(c));
      assert !AttemptBounded(d, c.attempt);
    }
  }

  /** A decision committed at once is always good. */
  lemma PromptCommitKeepsBounded(b: Books, f: InFlight)
    requires Inv(b) && Bounded(b) && InFlightOk(b, f) && f.seen == Total(b.allocations, f.command.attempt)
    ensures Bounded(Settle(b, f.command).0)
  {
    var s := System(b, [f]);
    assert SystemInv(s) && s.inFlight[0] == f;
    CommitBoundedExactly(s, 0);
  }

  lemma DeskKeepsBounded(b: Books, m: DeskMove)
    requires Inv(b) && Bounded(b)
    ensures Bounded(Manage(b, m))
  {
    if !m.HonorTransfer? {
      DeskNoRow(b, m);
      NoRowKeepsBounded(b, Manage(b, m));
    } else if m.honor.allocate > 0 {
      HonorRow(b, m.honor);
      if Honor(b, m.honor).1.Ok? {
        OneRowKeepsBounded(b, Honor(b, m.honor).0, Allocation(m.honor.attempt, m.honor.transfer, m.honor.allocate));
      }
    }
  }

  lemma StepBoundedExactly(s: System, step: Step)
    requires SystemInv(s) && Bounded(s.books)
    ensures Bounded(Apply(s, step).books) <==> GoodStep(s, step)
  {
    match step
    case World(w) => TurnNoRow(s.books, w); NoRowKeepsBounded(s.books, Turn(s.books, w));
    case Desk(m) => DeskKeepsBounded(s.books, m);
    case TakeDecision(t, a, f) =>
    case Commit(k) => if k < |s.inFlight| { CommitBoundedExactly(s, k); }
  }

  // ----- a broken bound never heals -----

  /** Neither too much nor a wrong status can be taken back. */
  lemma BrokenStays(s: System, step: Step, a: Id)
    requires SystemInv(s) && a in s.books.attempts && !AttemptBounded(s.books, a)
    ensures a in Apply(s, step).books.attempts && !AttemptBounded(Apply(s, step).books, a)
  {
    StepRow(s, step);
    StepKeepsSystemInv(s, step);
    RowKeepsBroken(s.books, Apply(s, step).books, a);
  }

  lemma RowKeepsBroken(b: Books, d: Books, a: Id)
    requires AtMostOneRow(b, d) && RowsOk(d) && a in b.attempts && !AttemptBounded(b, a)
    ensures a in d.attempts && !AttemptBounded(d, a)
  {
    if !NoRow(b, d) {
      assert RowOk(d, d.allocations[|b.allocations|]);
      AppendRow(b.allocations, d.allocations[|b.allocations|]);
    }
  }

  lemma {:induction false} BrokenForever(s: System, steps: seq<Step>, a: Id)
    requires SystemInv(s) && a in s.books.attempts && !AttemptBounded(s.books, a)
    ensures !Bounded(Run(s, steps).books)
    decreases |steps|
  {
    if steps != [] {
      BrokenStays(s, steps[0], a);
      StepKeepsSystemInv(s, steps[0]);
      BrokenForever(Apply(s, steps[0]), steps[1..], a);
    }
  }

  /** After any run, with any honors, rejections, dispositions and sweeps between:
      every attempt is bounded if and only if every commit of the run was good. */
  lemma {:induction false} BoundedExactly(s: System, steps: seq<Step>)
    requires SystemInv(s) && Bounded(s.books)
    ensures Bounded(Run(s, steps).books) <==> GoodRun(s, steps)
    decreases |steps|
  {
    if steps != [] {
      var next := Apply(s, steps[0]);
      StepKeepsSystemInv(s, steps[0]);
      StepBoundedExactly(s, steps[0]);
      if Bounded(next.books) {
        BoundedExactly(next, steps[1..]);
      } else {
        var a :| a in next.books.attempts && !AttemptBounded(next.books, a);
        BrokenForever(next, steps[1..], a);
      }
    }
  }

  /** In particular from empty tables. */
  lemma EveryRunBoundedExactly(steps: seq<Step>)
    ensures Bounded(Run(EMPTY, steps).books) <==> GoodRun(EMPTY, steps)
  {
    BoundedExactly(EMPTY, steps);
  }

  /** Every commit of the run is fresh: what a single worker without manual
      honors in between, or a re-read under the row lock, would guarantee. */
  ghost predicate FreshRun(s: System, steps: seq<Step>)
    decreases |steps|
  {
    steps == [] ||
    ((steps[0].Commit? && steps[0].index < |s.inFlight| ==> Fresh(s, steps[0].index))
     && FreshRun(Apply(s, steps[0]), steps[1..]))
  }

  lemma {:induction false} FreshRunIsGood(s: System, steps: seq<Step>)
    requires SystemInv(s) && FreshRun(s, steps)
    ensures GoodRun(s, steps)
    decreases |steps|
  {
    if steps != [] {
      if steps[0].Commit? && steps[0].index < |s.inFlight| { assert InFlightOk(s.books, s.inFlight[steps[0].index]); }
      StepKeepsSystemInv(s, steps[0]);
      FreshRunIsGood(Apply(s, steps[0]), steps[1..]);
    }
  }

  /** Over every run of fresh commits and any honors, no attempt ever holds more
      than it expects, and it is settled exactly when it holds all of it. */
  lemma FreshRunKeepsBounded(s: System, steps: seq<Step>)
    requires SystemInv(s) && Bounded(s.books) && FreshRun(s, steps)
    ensures Bounded(Run(s, steps).books)
  {
    FreshRunIsGood(s, steps);
    BoundedExactly(s, steps);
  }

  // ----- the interleavings that break the bound -----

  const CAREFUL := Findings(1, 1, true, S.Allow, false, [S.Tier(10, 1, false, false, true)])

  /** An attempt expects 100. One amount arrived and is parked for a person,
      another has just arrived. Nothing is allocated yet. */
  function ExampleBooks(parked: Amount, arriving: Amount): Books {
    Books(
      map[1 := TransferRow(parked, 5, 9, 10), 2 := TransferRow(arriving, 5, 9, 11)],
      map[1 := S.Finalized, 2 := S.Finalized],
      map[1 := ProcessingRow(Unmatched, 0), 2 := ProcessingRow(Pending, 0)],
      map[1 := AttemptRow(1, 7, 5, 9, 100, 50, S.AwaitingPayment)],
      map[1 := IntentRow(7, AwaitingPayment)],
      map[], [], map[], {}, [], {})
  }

  lemma ExampleIsSafe(parked: Amount, arriving: Amount)
    ensures SystemInv(System(ExampleBooks(parked, arriving), [])) && Bounded(ExampleBooks(parked, arriving))
  {
    var b := ExampleBooks(parked, arriving);
    assert Linked(b) && TransferOk(b, 1) && TransferOk(b, 2);
    assert AttemptBounded(b, 1);
  }

  /** The arriving amount is decided; before that decision commits, an operator
      honors the parked one. */
  function StaleRun(parked: Amount): seq<Step> {
    [TakeDecision(2, 1, CAREFUL), Desk(HonorTransfer(HonorRequest(1, 1, 1, parked))), Commit(0)]
  }

  /** What the decision on the arriving amount says. */
  function ArrivingOutcome(arriving: Amount): S.Outcome
    requires arriving <= 100
  {
    if arriving == 100 then S.Settle(arriving) else S.Partial(arriving)
  }

  /** Both amounts land in full; only a decision to settle settles. */
  lemma StaleRunEnds(parked: Amount, arriving: Amount)
    requires parked < 100 && arriving <= 100
    ensures var b := Run(System(ExampleBooks(parked, arriving), []), StaleRun(parked)).books;
            && 1 in b.attempts && b.attempts[1].expected == 100 && Total(b.allocations, 1) == parked + arriving
            && (b.attempts[1].status.Settled? <==> arriving == 100)
            && 1 in b.intents && (b.intents[1].status.PartiallyPaid? <==> arriving < 100)
  {
    var b := ExampleBooks(parked, arriving);
    var c := Command(2, 1, 1, 7, ArrivingOutcome(arriving));
    var b1 := Honor(b, HonorRequest(1, 1, 1, parked)).0;
    DecidedArriving(parked, arriving);
    HonoredParked(parked, arriving);
    CommittedArriving(b1, parked, arriving);
    RunThree(System(b, []), StaleRun(parked)[0], StaleRun(parked)[1], StaleRun(parked)[2]);
    assert Apply(System(b, []), StaleRun(parked)[0]) == System(b, [InFlight(c, 0)]);
    assert Apply(System(b, [InFlight(c, 0)]), StaleRun(parked)[1]) == System(b1, [InFlight(c, 0)]);
  }

  /** Three ordinary steps from consistent tables allocate 160 to an attempt that
      expects 100. */
  lemma StaleRunOverallocates()
    ensures SystemInv(System(ExampleBooks(60, 100), [])) && Bounded(ExampleBooks(60, 100))
    ensures var b := Run(System(ExampleBooks(60, 100), []), StaleRun(60)).books;
            1 in b.attempts && b.attempts[1].expected == 100 && Total(b.allocations, 1) == 160
  {
    ExampleIsSafe(60, 100);
    StaleRunEnds(60, 100);
  }

  /** And three others leave an attempt with all it expects and never settled,
      its intent partially paid. */
  lemma StaleRunStrands()
    ensures SystemInv(System(ExampleBooks(40, 60), [])) && Bounded(ExampleBooks(40, 60))
    ensures var b := Run(System(ExampleBooks(40, 60), []), StaleRun(40)).books;
            && 1 in b.attempts && b.attempts[1].expected == 100 == Total(b.allocations, 1) && !b.attempts[1].status.Settled?
            && 1 in b.intents && b.intents[1].status.PartiallyPaid?
  {
    ExampleIsSafe(40, 60);
    StaleRunEnds(40, 60);
  }

  lemma RunThree(s: System, a: Step, b: Step, c: Step)
    ensures Run(s, [a, b, c]) == Apply(Apply(Apply(s, a), b), c)
  {
    assert [a, b, c][1..] == [b, c] && [b, c][1..] == [c] && [c][1..] == [];
    assert Run(s, [a, b, c]) == Run(Apply(s, a), [b, c]);
    assert Run(Apply(s, a), [b, c]) == Run(Apply(Apply(s, a), b), [c]);
  }

  lemma DecidedArriving(parked: Amount, arriving: Amount)
    requires arriving <= 100
    ensures Decided(ExampleBooks(parked, arriving), 2, 1, CAREFUL)
            == Some(InFlight(Command(2, 1, 1, 7, ArrivingOutcome(arriving)), 0))
  {
    assert Total(ExampleBooks(parked, arriving).allocations, 1) == 0;
    assert S.TierFor(CAREFUL.tiers, 1) == Some(S.Tier(10, 1, false, false, true));
  }

  /** The books once the parked amount is honored. */
  ghost predicate Honored(b: Books, parked: Amount, arriving: Amount) {
    && b.allocations == [Allocation(1, 1, parked)]
    && b.attempts == ExampleBooks(parked, arriving).attempts && b.transfers == ExampleBooks(parked, arriving).transfers
    && b.processing == map[1 := ProcessingRow(Matched, parked), 2 := ProcessingRow(Pending, 0)]
    && b.intents == map[1 := IntentRow(7, PartiallyPaid)] && 2 !in b.claims
  }

  lemma HonoredParked(parked: Amount, arriving: Amount)
    requires parked < 100
    ensures Honored(Honor(ExampleBooks(parked, arriving), HonorRequest(1, 1, 1, parked)).0, parked, arriving)
  {
    var b := ExampleBooks(parked, arriving);
    assert Total(b.allocations, 1) == 0;
    assert PlanHonor(b, HonorRequest(1, 1, 1, parked)) == Ok(HonorPlan(7, S.Partial(parked)));
  }

  lemma AllocatedArriving(b: Books, parked: Amount, arriving: Amount, c: Command)
    requires Honored(b, parked, arriving) && arriving <= 100 && c == Command(2, 1, 1, 7, ArrivingOutcome(arriving))
    ensures AllocateAndFinish(b, c) == Ok((Allocated(b, c), RecordOf(c.outcome)))
  {}

  lemma CommittedArriving(b: Books, parked: Amount, arriving: Amount)
    requires Honored(b, parked, arriving) && arriving <= 100
    ensures var d := Settle(b, Command(2, 1, 1, 7, ArrivingOutcome(arriving))).0;
            && 1 in d.attempts && d.attempts[1].expected == 100 && Total(d.allocations, 1) == parked + arriving
            && (d.attempts[1].status.Settled? <==> arriving == 100)
            && 1 in d.intents && (d.intents[1].status.PartiallyPaid? <==> arriving < 100)
  {
    var c := Command(2, 1, 1, 7, ArrivingOutcome(arriving));
    AllocatedArriving(b, parked, arriving, c);
    assert Settle(b, c).0 == Allocated(b, c);
    TotalsAfter(parked, arriving);
  }

  lemma TotalsAfter(parked: nat, arriving: nat)
    ensures Total([Allocation(1, 1, parked)] + [Allocation(1, 2, arriving)], 1) == parked + arriving
  {
    AppendRow([Allocation(1, 1, parked)], Allocation(1, 2, arriving));
    AppendRow([], Allocation(1, 1, parked));
    assert [] + [Allocation(1, 1, parked)] == [Allocation(1, 1, parked)];
  }
}
