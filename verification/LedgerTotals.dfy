/** What an attempt ends up with: the lesser of what it expects and what the
    transfers allocated to it carried, over every run of settlements and honors. */
module LedgerTotals {
  import opened Common
  import S = Settlement
  import opened Ledger
  import opened LedgerInvariant
  import opened LedgerRuns
  import opened LedgerBounds

  /** What the transfers in an attempt's rows carried, oldest first. */
  function Carried(transfers: map<Id, TransferRow>, rows: seq<Allocation>, a: Id): seq<nat> {
    if rows == [] then []
    else
      var last := rows[|rows| - 1];
      Carried(transfers, rows[..|rows| - 1], a)
      + if last.attempt == a && last.transfer in transfers then [transfers[last.transfer].amount] else []
  }

  function Arrived(b: Books, a: Id): nat { S.Sum(Carried(b.transfers, b.allocations, a)) }

  ghost predicate Capped(b: Books) {
    forall a :: a in b.attempts ==> AttemptCapped(b, a)
  }

  ghost predicate AttemptCapped(b: Books, a: Id)
    requires a in b.attempts
  {
    Total(b.allocations, a) == Min(b.attempts[a].expected, Arrived(b, a))
  }

  lemma {:induction false} CarriedFrame(transfers: map<Id, TransferRow>, more: map<Id, TransferRow>, rows: seq<Allocation>, a: Id)
    requires forall i :: 0 <= i < |rows| ==> rows[i].transfer in transfers
    requires forall t :: t in transfers ==> t in more && more[t] == transfers[t]
    ensures Carried(more, rows, a) == Carried(transfers, rows, a)
  {
    if rows != [] { CarriedFrame(transfers, more, rows[..|rows| - 1], a); }
  }

  lemma {:induction false} NothingCarried(transfers: map<Id, TransferRow>, rows: seq<Allocation>, a: Id)
    requires forall i :: 0 <= i < |rows| ==> rows[i].attempt != a
    ensures Carried(transfers, rows, a) == []
  {
    if rows != [] { NothingCarried(transfers, rows[..|rows| - 1], a); }
  }

  lemma ArrivedFrame(b: Books, d: Books, a: Id)
    requires RowsOk(b) && Extends(b, d)
    ensures S.Sum(Carried(d.transfers, b.allocations, a)) == Arrived(b, a)
  {
    forall i | 0 <= i < |b.allocations| ensures b.allocations[i].transfer in b.transfers { assert RowOk(b, b.allocations[i]); }
    CarriedFrame(b.transfers, d.transfers, b.allocations, a);
  }

  lemma NoRowKeepsCapped(b: Books, d: Books)
    requires RowsOk(b) && Capped(b) && NoRow(b, d) && Extends(b, d)
    ensures Capped(d)
  {
    forall a | a in d.attempts ensures AttemptCapped(d, a) {
      if a in b.attempts {
        assert AttemptCapped(b, a);
        ArrivedFrame(b, d, a);
      } else {
        forall i | 0 <= i < |b.allocations| ensures b.allocations[i].attempt != a { assert RowOk(b, b.allocations[i]); }
        UnknownAttempt(b.allocations, a);
        NothingCarried(d.transfers, b.allocations, a);
      }
    }
  }

  /** One more row adds what its transfer carried, to its attempt only. */
  lemma RowArrives(b: Books, d: Books, row: Allocation, a: Id)
    requires RowsOk(b) && Extends(b, d) && d.allocations == b.allocations + [row] && row.transfer in b.transfers
    ensures Arrived(d, a) == Arrived(b, a) + if row.attempt == a then b.transfers[row.transfer].amount else 0
  {
    assert d.allocations[..|b.allocations|] == b.allocations;
    ArrivedFrame(b, d, a);
    var before := Carried(d.transfers, b.allocations, a);
    var amount: nat := b.transfers[row.transfer].amount;
    assert before + [] == before && S.Sum([amount]) == amount;
    S.SumSplit(before, [amount]);
  }

  /** An allocation that fits, of all that arrived or all that was owed. */
  ghost predicate Fair(b: Books, row: Allocation)
    requires row.attempt in b.attempts && row.transfer in b.transfers
  {
    var owed := b.attempts[row.attempt].expected - Total(b.allocations, row.attempt);
    0 < row.amount == Min(owed, b.transfers[row.transfer].amount)
  }

  lemma OneRowKeepsCapped(b: Books, d: Books, row: Allocation)
    requires RowsOk(b) && Capped(b) && OneRow(b, d, row) && Extends(b, d) && row.transfer in b.transfers && Fair(b, row)
    ensures Capped(d)
  {
    AppendRow(b.allocations, row);
    forall a | a in d.attempts ensures AttemptCapped(d, a) {
      assert AttemptCapped(b, a);
      RowArrives(b, d, row, a);
    }
  }

  // ----- exactly which runs stay capped -----

  /** If the commit lands, what it allocates is still owed. */
  ghost predicate FitsStill(s: System, step: Step) {
    step.Commit? && step.index < |s.inFlight| && Lands(s.books, s.inFlight[step.index].command) ==>
      var c := s.inFlight[step.index].command;
      S.AllocatedBy(c.outcome) <= s.books.attempts[c.attempt].expected - Total(s.books.allocations, c.attempt)
  }

  ghost predicate FittingRun(s: System, steps: seq<Step>)
    decreases |steps|
  {
    steps == [] || (FitsStill(s, steps[0]) && FittingRun(Apply(s, steps[0]), steps[1..]))
  }

  lemma CommitKeepsCapped(s: System, k: nat)
    requires SystemInv(s) && Capped(s.books) && k < |s.inFlight| && FitsStill(s, Commit(k))
    ensures Capped(Settle(s.books, s.inFlight[k].command).0)
  {
    var b, c := s.books, s.inFlight[k].command;
    assert InFlightOk(b, s.inFlight[k]);
    CommitRow(b, c);
    SettleExtends(b, c);
    if Lands(b, c) {
      OneRowKeepsCapped(b, Settle(b, c).0, RowOf(c));
    } else {
      NoRowKeepsCapped(b, Settle(b, c).0);
    }
  }

  lemma DeskKeepsCapped(b: Books, m: DeskMove)
    requires Inv(b) && Capped(b)
    ensures Capped(Manage(b, m))
  {
    if !m.HonorTransfer? {
      ManageExtends(b, m);
      DeskNoRow(b, m);
      NoRowKeepsCapped(b, Manage(b, m));
    } else if m.honor.allocate > 0 {
      HonorKeepsCapped(b, m.honor);
    }
  }

  lemma HonorKeepsCapped(b: Books, h: HonorRequest)
    requires Inv(b) && Capped(b) && h.allocate > 0
    ensures Capped(Honor(b, h).0)
  {
    HonorRow(b, h);
    HonorExtends(b, h);
    if Honor(b, h).1.Ok? { HonorPaidKeepsCapped(b, Honor(b, h).0, h); }
  }

  lemma HonorPaidKeepsCapped(b: Books, d: Books, h: HonorRequest)
    requires RowsOk(b) && Capped(b) && Extends(b, d) && h.allocate > 0 && HonorPaid(b, d, h)
    ensures Capped(d)
  {
    OneRowKeepsCapped(b, d, Allocation(h.attempt, h.transfer, h.allocate));
  }

  lemma StepKeepsCapped(s: System, step: Step)
    requires SystemInv(s) && Capped(s.books) && FitsStill(s, step)
    ensures Capped(Apply(s, step).books)
  {
    match step
    case World(w) => TurnExtends(s.books, w); TurnNoRow(s.books, w); NoRowKeepsCapped(s.books, Turn(s.books, w));
    case Desk(m) => DeskKeepsCapped(s.books, m);
    case TakeDecision(t, a, f) =>
    case Commit(k) => if k < |s.inFlight| { CommitKeepsCapped(s, k); }
  }

  ghost predicate Exceeds(b: Books, a: Id) {
    a in b.attempts && Total(b.allocations, a) > b.attempts[a].expected
  }

  lemma UnfitExceeds(s: System, k: nat)
    requires SystemInv(s) && k < |s.inFlight| && !FitsStill(s, Commit(k))
    ensures Exceeds(Apply(s, Commit(k)).books, s.inFlight[k].command.attempt)
  {
    assert InFlightOk(s.books, s.inFlight[k]);
    CommitRow(s.books, s.inFlight[k].command);
    AppendRow(s.books.allocations, RowOf(s.inFlight[k].command));
  }

  lemma {:induction false} ExceedsForever(s: System, steps: seq<Step>, a: Id)
    requires SystemInv(s) && Exceeds(s.books, a)
    ensures Exceeds(Run(s, steps).books, a)
    decreases |steps|
  {
    if steps != [] {
      StepExtends(s, steps[0]);
      TotalGrows(s.books.allocations, Apply(s, steps[0]).books.allocations, a);
      StepKeepsSystemInv(s, steps[0]);
      ExceedsForever(Apply(s, steps[0]), steps[1..], a);
    }
  }

  /** After any run, every attempt holds the lesser of what it expects and what the
      transfers in its rows carried, if and only if each commit that landed
      allocated what was still owed. */
  lemma {:induction false} CappedExactly(s: System, steps: seq<Step>)
    requires SystemInv(s) && Capped(s.books)
    ensures Capped(Run(s, steps).books) <==> FittingRun(s, steps)
    decreases |steps|
  {
    if steps != [] {
      StepKeepsSystemInv(s, steps[0]);
      if FitsStill(s, steps[0]) {
        StepKeepsCapped(s, steps[0]);
        CappedExactly(Apply(s, steps[0]), steps[1..]);
      } else {
        var a := s.inFlight[steps[0].index].command.attempt;
        UnfitExceeds(s, steps[0].index);
        ExceedsForever(Apply(s, steps[0]), steps[1..], a);
        assert !AttemptCapped(Run(s, steps).books, a);
      }
    }
  }

  lemma {:induction false} GoodRunFits(s: System, steps: seq<Step>)
    requires SystemInv(s) && GoodRun(s, steps)
    ensures FittingRun(s, steps)
    decreases |steps|
  {
    if steps != [] {
      if steps[0].Commit? && steps[0].index < |s.inFlight| { assert InFlightOk(s.books, s.inFlight[steps[0].index]); }
      StepKeepsSystemInv(s, steps[0]);
      GoodRunFits(Apply(s, steps[0]), steps[1..]);
    }
  }

  /** So every run of fresh commits and any honors keeps each attempt at exactly
      the lesser of the two; empty tables start that way. */
  lemma FreshRunKeepsCapped(s: System, steps: seq<Step>)
    requires SystemInv(s) && Capped(s.books) && FreshRun(s, steps)
    ensures Capped(Run(s, steps).books) && Capped(EMPTY.books)
  {
    FreshRunIsGood(s, steps);
    GoodRunFits(s, steps);
    CappedExactly(s, steps);
  }

  // ----- in any order -----

  lemma {:induction false} ExpectedStays(s: System, steps: seq<Step>, a: Id)
    requires SystemInv(s) && a in s.books.attempts
    ensures a in Run(s, steps).books.attempts && Run(s, steps).books.attempts[a].expected == s.books.attempts[a].expected
    decreases |steps|
  {
    if steps != [] {
      StepExtends(s, steps[0]);
      StepKeepsSystemInv(s, steps[0]);
      ExpectedStays(Apply(s, steps[0]), steps[1..], a);
    }
  }

  /** Two runs that bring an attempt the same amounts, in whatever order and
      whether settled or honored, leave it with the same total. */
  lemma OrderDoesNotMatter(s: System, run: seq<Step>, other: seq<Step>, a: Id)
    requires SystemInv(s) && Capped(s.books) && a in s.books.attempts
    requires FittingRun(s, run) && FittingRun(s, other)
    requires var b, d := Run(s, run).books, Run(s, other).books;
             multiset(Carried(b.transfers, b.allocations, a)) == multiset(Carried(d.transfers, d.allocations, a))
    ensures Total(Run(s, run).books.allocations, a) == Total(Run(s, other).books.allocations, a)
  {
    var b, d := Run(s, run).books, Run(s, other).books;
    CappedExactly(s, run);
    CappedExactly(s, other);
    ExpectedStays(s, run, a);
    ExpectedStays(s, other, a);
    assert AttemptCapped(b, a) && AttemptCapped(d, a);
    S.SumPermutes(Carried(b.transfers, b.allocations, a), Carried(d.transfers, d.allocations, a));
  }
}
