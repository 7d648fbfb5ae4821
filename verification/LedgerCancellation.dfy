/** A merchant's cancellation and the money path exclude each other
    (crates/gateway-storage/src/postgres/intents.rs). */
module LedgerCancellation {
  import opened Common
  import S = Settlement
  import opened Ledger
  import opened LedgerInvariant
  import opened LedgerRuns
  import opened LedgerBounds

  /** The intent is cancelled and no transfer belongs to it. */
  ghost predicate Abandoned(b: Books, i: Id) {
    i in b.intents && b.intents[i].status.Cancelled? && forall t :: t in b.claims ==> b.claims[t] != i
  }

  lemma TurnKeepsAbandoned(b: Books, w: WorldMove, i: Id)
    requires Abandoned(b, i)
    ensures Abandoned(Turn(b, w), i)
  {}

  /** Money goes to payable intents only. */
  lemma AllocationKeepsAbandoned(b: Books, c: Command, i: Id)
    requires Inv(b) && Sound(b, c) && S.MovesMoney(c.outcome) && Undecided(b.processing[c.transfer].state)
    requires AllocateAndFinish(b, c).Ok? && Abandoned(b, i)
    ensures Abandoned(AllocateAndFinish(b, c).value.0, i)
  {
    AllocationOutcomes(b, c);
    AllocationShape(b, c);
  }

  lemma SettleKeepsAbandoned(b: Books, c: Command, i: Id)
    requires Inv(b) && Sound(b, c) && Abandoned(b, i)
    ensures Abandoned(Settle(b, c).0, i)
  {
    if b.processing[c.transfer].state.Pending? && S.MovesMoney(c.outcome) && AllocateAndFinish(b, c).Ok? {
      AllocationKeepsAbandoned(b, c, i);
    }
  }

  lemma HonorKeepsAbandoned(b: Books, h: HonorRequest, i: Id)
    requires Inv(b) && h.allocate > 0 && Abandoned(b, i)
    ensures Abandoned(Honor(b, h).0, i)
  {
    if PlanHonor(b, h).Ok? {
      HonorIsSound(b, h);
      if AllocateAndFinish(b, HonorCommand(b, h)).Ok? { AllocationKeepsAbandoned(b, HonorCommand(b, h), i); }
    }
  }

  lemma ManageKeepsAbandoned(b: Books, m: DeskMove, i: Id)
    requires Inv(b) && Abandoned(b, i)
    ensures Abandoned(Manage(b, m), i)
  {
    if m.HonorTransfer? && m.honor.allocate > 0 { HonorKeepsAbandoned(b, m.honor, i); }
  }

  lemma StepKeepsAbandoned(s: System, step: Step, i: Id)
    requires SystemInv(s) && Abandoned(s.books, i)
    ensures Abandoned(Apply(s, step).books, i)
  {
    match step
    case World(w) => TurnKeepsAbandoned(s.books, w, i);
    case Desk(m) => ManageKeepsAbandoned(s.books, m, i);
    case TakeDecision(_, _, _) =>
    case Commit(k) =>
      if k < |s.inFlight| {
        assert InFlightOk(s.books, s.inFlight[k]);
        SettleKeepsAbandoned(s.books, s.inFlight[k].command, i);
      }
  }

  lemma {:induction false} RunKeepsAbandoned(s: System, steps: seq<Step>, i: Id)
    requires SystemInv(s) && Abandoned(s.books, i)
    ensures SystemInv(Run(s, steps)) && Abandoned(Run(s, steps).books, i)
    decreases |steps|
  {
    if steps != [] {
      StepKeepsSystemInv(s, steps[0]);
      StepKeepsAbandoned(s, steps[0], i);
      RunKeepsAbandoned(Apply(s, steps[0]), steps[1..], i);
    }
  }

  lemma NothingHeld(b: Books, i: Id, a: Id)
    requires Inv(b) && Abandoned(b, i) && a in b.attempts && b.attempts[a].intent == i
    ensures Total(b.allocations, a) == 0
  {
    forall k | 0 <= k < |b.allocations| ensures b.allocations[k].attempt != a { assert RowOk(b, b.allocations[k]); }
    UnknownAttempt(b.allocations, a);
  }

  /** A cancellation goes through exactly when nothing has been claimed or decided
      for the intent and its status allows it; and then, after any run, whatever
      decisions were already in flight, the intent is still cancelled, never paid,
      and none of its attempts, live or expired, holds anything. */
  lemma CancelledForGood(s: System, i: Id, steps: seq<Step>)
    requires SystemInv(s) && i in s.books.intents && !s.books.intents[i].status.Cancelled?
    ensures var next := Apply(s, World(CancelIntent(i)));
            && (next.books.intents[i].status.Cancelled? <==> Cancellable(s.books.intents[i].status) && !Touched(s.books, i))
            && (next.books.intents[i].status.Cancelled? ==>
                  var d := Run(next, steps).books;
                  && i in d.intents && d.intents[i].status.Cancelled? && i !in d.fulfilments
                  && forall a :: a in d.attempts && d.attempts[a].intent == i ==> Total(d.allocations, a) == 0)
  {
    var next := Apply(s, World(CancelIntent(i)));
    if next.books.intents[i].status.Cancelled? {
      assert Abandoned(next.books, i);
      StepKeepsSystemInv(s, World(CancelIntent(i)));
      RunKeepsAbandoned(next, steps, i);
      var d := Run(next, steps).books;
      forall a | a in d.attempts && d.attempts[a].intent == i ensures Total(d.allocations, a) == 0 { NothingHeld(d, i, a); }
    }
  }
}
