/** What becomes of a transfer is decided once: processing only moves forward, and
    money allocated from it is never touched again
    (crates/gateway-storage/src/settlement.rs and operations.rs). */
module LedgerFinality {
  import opened Common
  import S = Settlement
  import opened Ledger
  import opened LedgerInvariant
  import opened LedgerRuns

  /** One transaction's effect on a processing state. */
  predicate Forward(p: Processing, q: Processing) {
    match p
    case Pending => !q.Resolved?
    case Unmatched => !q.Pending? && !q.Held?
    case Held => !q.Pending? && !q.Unmatched?
    case Matched => q.Matched? || q.Resolved?
    case Settled => q.Settled?
    case Resolved => q.Resolved?
  }

  /** The step from `b` to `d` moves this transfer forward, and leaves what it has
      spent alone once something is decided about it. */
  ghost predicate Moves(b: Books, d: Books, t: Id) {
    && t in b.processing && t in d.processing && Forward(b.processing[t].state, d.processing[t].state)
    && (!Undecided(b.processing[t].state) ==> d.processing[t].spent == b.processing[t].spent)
  }

  lemma AllocationMoves(b: Books, c: Command, t: Id)
    requires c.transfer in b.transfers && c.transfer in b.processing && S.MovesMoney(c.outcome) && t in b.processing
    requires Undecided(b.processing[c.transfer].state) && AllocateAndFinish(b, c).Ok?
    ensures b.processing[c.transfer].state.Pending? || !AllocateAndFinish(b, c).value.1.RForeignClaim? ==>
            Moves(b, AllocateAndFinish(b, c).value.0, t)
  {}

  lemma SettleMoves(b: Books, c: Command, t: Id)
    requires t in b.processing
    ensures Moves(b, Settle(b, c).0, t)
  {
    if c.transfer in b.processing && c.transfer in b.transfers && b.processing[c.transfer].state.Pending?
       && S.MovesMoney(c.outcome) && AllocateAndFinish(b, c).Ok? {
      AllocationMoves(b, c, t);
    }
  }

  lemma HonorMoves(b: Books, h: HonorRequest, t: Id)
    requires t in b.processing
    ensures Moves(b, Honor(b, h).0, t)
  {
    if PlanHonor(b, h).Ok? && AllocateAndFinish(b, HonorCommand(b, h)).Ok? {
      AllocationMoves(b, HonorCommand(b, h), t);
    }
  }

  lemma DeskMoves(b: Books, m: DeskMove, t: Id)
    requires t in b.processing
    ensures Moves(b, Manage(b, m), t)
  {
    match m
    case LeaveUnresolved(u) => assert Moves(b, Unresolved(b, u), t);
    case HonorTransfer(h) => HonorMoves(b, h, t);
    case RejectTransfer(u) => RejectMoves(b, u, t);
    case DisposeRemainder(u, i, r) => DisposeMoves(b, u, i, r, t);
  }

  lemma RejectMoves(b: Books, u: Id, t: Id)
    requires t in b.processing
    ensures Moves(b, Reject(b, u).0, t)
  {}

  lemma DisposeMoves(b: Books, u: Id, i: Id, r: nat, t: Id)
    requires t in b.processing
    ensures Moves(b, Dispose(b, u, i, r).0, t)
  {}

  lemma WorldMoves(b: Books, w: WorldMove, t: Id)
    requires Linked(b) && t in b.processing
    ensures Moves(b, Turn(b, w), t)
  {}

  lemma StepMoves(s: System, step: Step, t: Id)
    requires SystemInv(s) && t in s.books.processing
    ensures Moves(s.books, Apply(s, step).books, t)
  {
    match step
    case World(w) => WorldMoves(s.books, w, t);
    case Desk(m) => DeskMoves(s.books, m, t);
    case TakeDecision(_, _, _) =>
    case Commit(k) => if k < |s.inFlight| { SettleMoves(s.books, s.inFlight[k].command, t); }
  }

  /** Decided for good. */
  predicate Closed(p: Processing) { p.Settled? || p.Resolved? }

  /** Over every run: a settled or resolved transfer stays exactly so, and once
      anything is decided about a transfer its allocations never change, neither
      by settlement nor by an operator. In particular a rejected transfer never
      pays anyone. */
  lemma {:induction false} DecidedOnce(s: System, steps: seq<Step>, t: Id)
    requires SystemInv(s) && t in s.books.processing && !Undecided(s.books.processing[t].state)
    ensures var d := Run(s, steps).books;
            && t in d.processing && !Undecided(d.processing[t].state) && Forward(s.books.processing[t].state, d.processing[t].state)
            && (Closed(s.books.processing[t].state) ==> d.processing[t] == s.books.processing[t])
            && Spent(d.allocations, t) == Spent(s.books.allocations, t)
    decreases |steps|
  {
    if steps != [] {
      var next := Apply(s, steps[0]);
      StepMoves(s, steps[0], t);
      StepRow(s, steps[0]);
      SpentStays(s.books, next.books, t);
      StepKeepsSystemInv(s, steps[0]);
      DecidedOnce(next, steps[1..], t);
    }
  }

  lemma SpentStays(b: Books, d: Books, t: Id)
    requires t in b.processing && !Undecided(b.processing[t].state)
    requires NoRow(b, d) || (|d.allocations| == |b.allocations| + 1 && OneRow(b, d, d.allocations[|b.allocations|]))
    ensures Spent(d.allocations, t) == Spent(b.allocations, t)
  {
    if |d.allocations| > |b.allocations| { AppendRow(b.allocations, d.allocations[|b.allocations|]); }
  }
}
