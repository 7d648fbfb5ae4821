/** What every transaction on the money tables keeps. */
module LedgerInvariant {
  import opened Common
  import S = Settlement
  import opened Ledger

  predicate MoneyKind(k: DecisionKind) { k.DSettled? || k.DPartial? || k.DOverpaid? }

  predicate Undecided(p: Processing) { p.Pending? || p.Held? || p.Unmatched? }

  /** Every transfer has its rows; every reference names a row. */
  ghost predicate Linked(b: Books) {
    && b.processing.Keys == b.transfers.Keys
    && b.finality.Keys == b.transfers.Keys
    && (forall a :: a in b.attempts ==>
          b.attempts[a].intent in b.intents && b.attempts[a].merchant == b.intents[b.attempts[a].intent].merchant)
    && (forall k :: k in b.decisions ==> k.1 in b.transfers)
    && b.claims.Keys <= b.transfers.Keys
  }

  /** One transfer: its counter is the sum of its rows, it has at most one row,
      never spends more than it carries, is claimed exactly when it is spent,
      and while nothing is decided it has spent nothing. */
  ghost predicate TransferOk(b: Books, t: Id)
    requires t in b.transfers && t in b.processing
  {
    && b.processing[t].spent == Spent(b.allocations, t) <= b.transfers[t].amount
    && RowCount(b.allocations, t) <= 1
    && (t in b.claims <==> RowCount(b.allocations, t) == 1)
    && (t in b.claims ==> (b.claims[t], t) in b.decisions && MoneyKind(b.decisions[(b.claims[t], t)].kind))
    && (Undecided(b.processing[t].state) ==> RowCount(b.allocations, t) == 0)
  }

  /** One decision row: money is split exactly, belongs to the claiming intent
      and equals the allocation; any other decision carries no amount. */
  ghost predicate DecisionOk(b: Books, k: (Id, Id))
    requires k in b.decisions && k.1 in b.transfers
  {
    var d := b.decisions[k];
    if MoneyKind(d.kind) then
      && k.1 in b.claims && b.claims[k.1] == k.0
      && d.amount == Spent(b.allocations, k.1) > 0
      && d.amount + d.remainder == b.transfers[k.1].amount
      && (d.kind.DOverpaid? <==> d.remainder > 0)
    else d.amount == 0 && d.remainder == 0
  }

  /** One allocation row: on the attempt's own collector, for the intent that
      claimed the transfer. */
  ghost predicate RowOk(b: Books, row: Allocation) {
    && row.attempt in b.attempts && row.transfer in b.transfers && row.transfer in b.claims && row.amount > 0
    && b.attempts[row.attempt].intent == b.claims[row.transfer]
    && b.attempts[row.attempt].collector == b.transfers[row.transfer].collector
  }

  /** An intent is paid exactly when its fulfilment is claimed, and the
      merchant's paid event was enqueued exactly once for it. */
  ghost predicate PaidOnce(b: Books) {
    && (forall i :: i in b.intents ==> (b.intents[i].status.Paid? <==> i in b.fulfilments))
    && b.fulfilments <= b.intents.Keys
    && (forall i :: i in b.fulfilments <==> i in b.paidEvents)
    && (forall j, k :: 0 <= j < k < |b.paidEvents| ==> b.paidEvents[j] != b.paidEvents[k])
  }

  /** A settled attempt settled its intent, and no second attempt did. */
  ghost predicate SettledOnce(b: Books)
    requires Linked(b)
  {
    && (forall a :: a in b.attempts && b.attempts[a].status.Settled? ==> b.intents[b.attempts[a].intent].status.Paid?)
    && (forall a, c :: a in b.attempts && c in b.attempts && a != c && b.attempts[a].status.Settled? && b.attempts[c].status.Settled? ==>
          b.attempts[a].intent != b.attempts[c].intent)
  }

  ghost predicate Inv(b: Books) {
    && Linked(b)
    && TransfersOk(b)
    && DecisionsOk(b)
    && RowsOk(b)
    && PaidOnce(b)
    && SettledOnce(b)
  }

  ghost predicate TransfersOk(b: Books)
    requires Linked(b)
  {
    forall t :: t in b.transfers ==> TransferOk(b, t)
  }

  ghost predicate DecisionsOk(b: Books)
    requires Linked(b)
  {
    forall k :: k in b.decisions ==> DecisionOk(b, k)
  }

  ghost predicate RowsOk(b: Books) {
    forall i :: 0 <= i < |b.allocations| ==> RowOk(b, b.allocations[i])
  }

  // ----- what a change elsewhere leaves alone -----

  lemma TransfersFrame(b: Books, d: Books)
    requires Linked(b) && Linked(d) && TransfersOk(b)
    requires d.transfers == b.transfers && d.processing == b.processing && d.claims == b.claims
    requires d.allocations == b.allocations && d.decisions == b.decisions
    ensures TransfersOk(d)
  {
    forall t | t in d.transfers ensures TransferOk(d, t) { assert TransferOk(b, t); }
  }

  lemma DecisionsFrame(b: Books, d: Books)
    requires Linked(b) && Linked(d) && DecisionsOk(b)
    requires d.decisions == b.decisions && d.claims == b.claims && d.allocations == b.allocations
    requires forall t :: t in b.transfers ==> t in d.transfers && d.transfers[t] == b.transfers[t]
    ensures DecisionsOk(d)
  {
    forall k | k in d.decisions ensures DecisionOk(d, k) { assert DecisionOk(b, k); }
  }

  lemma RowsFrame(b: Books, d: Books)
    requires RowsOk(b)
    requires d.allocations == b.allocations && d.claims == b.claims
    requires forall t :: t in b.transfers ==> t in d.transfers && d.transfers[t] == b.transfers[t]
    requires forall a :: a in b.attempts ==> a in d.attempts && d.attempts[a] == b.attempts[a].(status := d.attempts[a].status)
    ensures RowsOk(d)
  {
    forall i | 0 <= i < |d.allocations| ensures RowOk(d, d.allocations[i]) { assert RowOk(b, b.allocations[i]); }
  }

  lemma DecisionsSame(b: Books, d: Books)
    requires Linked(b) && Linked(d) && DecisionsOk(b)
    requires d.decisions == b.decisions && d.claims == b.claims && d.allocations == b.allocations && d.transfers == b.transfers
    ensures DecisionsOk(d)
  {
    DecisionsFrame(b, d);
  }

  lemma RowsSame(b: Books, d: Books)
    requires RowsOk(b)
    requires d.allocations == b.allocations && d.claims == b.claims && d.transfers == b.transfers && d.attempts == b.attempts
    ensures RowsOk(d)
  {
    RowsFrame(b, d);
  }

  lemma StatusFrame(b: Books, d: Books)
    requires Linked(b) && Linked(d) && PaidOnce(b) && SettledOnce(b)
    requires d.attempts == b.attempts && d.intents == b.intents && d.fulfilments == b.fulfilments && d.paidEvents == b.paidEvents
    ensures PaidOnce(d) && SettledOnce(d)
  {}

  /** A command whose amounts come from a decision on this transfer's amount. */
  ghost predicate Sound(b: Books, c: Command) {
    && c.transfer in b.transfers && c.attempt in b.attempts
    && c.intent == b.attempts[c.attempt].intent && c.merchant == b.attempts[c.attempt].merchant
    && (S.MovesMoney(c.outcome) ==>
          && S.AllocatedBy(c.outcome) > 0
          && S.AllocatedBy(c.outcome) + S.RemainderOf(c.outcome) == b.transfers[c.transfer].amount
          && (c.outcome.Overpaid? ==> c.outcome.remainder > 0))
  }

  // ----- money moves -----

  /** Under the invariant an allocation on an undecided transfer either is
      refused or is recorded as the money it moved: the foreign-claim and
      replay answers cannot happen, and the ceiling never fires. */
  lemma AllocationOutcomes(b: Books, c: Command)
    requires Inv(b) && Sound(b, c) && S.MovesMoney(c.outcome) && Undecided(b.processing[c.transfer].state)
    ensures var r := AllocateAndFinish(b, c);
            && (r.Ok? ==> r.value.1 == RecordOf(c.outcome))
            && (r.Err? ==> r.error == TransitionRefused)
            && (r.Ok? <==>
                  && b.attempts[c.attempt].collector == b.transfers[c.transfer].collector
                  && AllocatableAttempt(b.attempts[c.attempt].status)
                  && PayableIntent(b.intents[c.intent].status))
  {
    assert TransferOk(b, c.transfer);
    NoRows(b.allocations, c.transfer);
  }

  /** The books after an allocation went through. */
  function Allocated(b: Books, c: Command): Books
    requires c.transfer in b.processing && c.attempt in b.attempts && c.intent in b.intents
  {
    var amount := S.AllocatedBy(c.outcome);
    var state := if c.outcome.Settle? then Settled else Matched;
    var done := S.Completes(c.outcome);
    Books(
      b.transfers, b.finality,
      b.processing[c.transfer := ProcessingRow(state, b.processing[c.transfer].spent + amount)],
      if done then b.attempts[c.attempt := b.attempts[c.attempt].(status := S.Settled)] else b.attempts,
      b.intents[c.intent := b.intents[c.intent].(status := if done then Paid else PartiallyPaid)],
      b.claims[c.transfer := c.intent],
      b.allocations + [Allocation(c.attempt, c.transfer, amount)],
      b.decisions[(c.intent, c.transfer) := Decision(KindOf(c.outcome), amount, S.RemainderOf(c.outcome))],
      if done then b.fulfilments + {c.intent} else b.fulfilments,
      if done && c.intent !in b.fulfilments then b.paidEvents + [c.intent] else b.paidEvents,
      b.dispositions)
  }

  lemma AllocationShape(b: Books, c: Command)
    requires Inv(b) && Sound(b, c) && S.MovesMoney(c.outcome) && Undecided(b.processing[c.transfer].state)
    requires AllocateAndFinish(b, c).Ok?
    ensures AllocateAndFinish(b, c).value.0 == Allocated(b, c)
  {
    AllocationOutcomes(b, c);
  }

  lemma AllocationKeepsTransfers(b: Books, c: Command, t: Id)
    requires Inv(b) && Sound(b, c) && S.MovesMoney(c.outcome) && Undecided(b.processing[c.transfer].state)
    requires t in b.transfers
    ensures TransferOk(Allocated(b, c), t)
  {
    assert TransferOk(b, t);
    AppendRow(b.allocations, Allocation(c.attempt, c.transfer, S.AllocatedBy(c.outcome)));
    if t == c.transfer {
      NoRows(b.allocations, t);
      SpentTransferIsOk(b, c);
    } else {
      OtherTransferIsOk(b, c, t);
    }
  }

  lemma SpentTransferIsOk(b: Books, c: Command)
    requires Linked(b) && Sound(b, c) && S.MovesMoney(c.outcome) && TransferOk(b, c.transfer)
    requires var d := Allocated(b, c);
             && Spent(b.allocations, c.transfer) == 0 && Spent(d.allocations, c.transfer) == S.AllocatedBy(c.outcome)
             && RowCount(d.allocations, c.transfer) == 1
    ensures TransferOk(Allocated(b, c), c.transfer)
  {}

  lemma OtherTransferIsOk(b: Books, c: Command, t: Id)
    requires Linked(b) && Sound(b, c) && t in b.transfers && t != c.transfer && TransferOk(b, t)
    requires var d := Allocated(b, c);
             Spent(d.allocations, t) == Spent(b.allocations, t) && RowCount(d.allocations, t) == RowCount(b.allocations, t)
    ensures TransferOk(Allocated(b, c), t)
  {}

  lemma AllocationKeepsDecisions(b: Books, c: Command, k: (Id, Id))
    requires Inv(b) && Sound(b, c) && S.MovesMoney(c.outcome) && Undecided(b.processing[c.transfer].state)
    requires k in Allocated(b, c).decisions
    ensures k.1 in b.transfers && DecisionOk(Allocated(b, c), k)
  {
    assert TransferOk(b, c.transfer);
    NoRows(b.allocations, c.transfer);
    AppendRow(b.allocations, Allocation(c.attempt, c.transfer, S.AllocatedBy(c.outcome)));
    if k in b.decisions { assert DecisionOk(b, k); }
  }

  lemma AllocationKeepsRows(b: Books, c: Command, i: nat)
    requires Inv(b) && Sound(b, c) && S.MovesMoney(c.outcome) && Undecided(b.processing[c.transfer].state)
    requires b.attempts[c.attempt].collector == b.transfers[c.transfer].collector
    requires i <= |b.allocations|
    ensures RowOk(Allocated(b, c), Allocated(b, c).allocations[i])
  {
    if i < |b.allocations| {
      assert RowOk(b, b.allocations[i]);
      assert TransferOk(b, c.transfer);
      NoRows(b.allocations, c.transfer);
    }
  }

  lemma AllocationKeepsInv(b: Books, c: Command)
    requires Inv(b) && Sound(b, c) && S.MovesMoney(c.outcome) && Undecided(b.processing[c.transfer].state)
    requires AllocateAndFinish(b, c).Ok?
    ensures Inv(AllocateAndFinish(b, c).value.0)
  {
    AllocationOutcomes(b, c);
    AllocationShape(b, c);
    var d := Allocated(b, c);
    AllocationKeepsLinks(b, c);
    forall t | t in d.transfers ensures TransferOk(d, t) { AllocationKeepsTransfers(b, c, t); }
    forall k | k in d.decisions ensures DecisionOk(d, k) { AllocationKeepsDecisions(b, c, k); }
    forall i | 0 <= i < |d.allocations| ensures RowOk(d, d.allocations[i]) { AllocationKeepsRows(b, c, i); }
    AllocationKeepsPaid(b, c);
    AllocationKeepsSettled(b, c);
  }

  lemma AllocationKeepsLinks(b: Books, c: Command)
    requires Linked(b) && Sound(b, c)
    ensures Linked(Allocated(b, c))
  {}

  lemma AllocationKeepsPaid(b: Books, c: Command)
    requires Linked(b) && PaidOnce(b) && Sound(b, c) && PayableIntent(b.intents[c.intent].status)
    ensures PaidOnce(Allocated(b, c))
  {
    var d := Allocated(b, c);
    assert c.intent !in b.fulfilments;
    forall i | i in d.intents ensures d.intents[i].status.Paid? <==> i in d.fulfilments {}
    forall i ensures i in d.fulfilments <==> i in d.paidEvents {
      assert i in b.fulfilments <==> i in b.paidEvents;
    }
  }

  lemma AllocationKeepsSettled(b: Books, c: Command)
    requires Linked(b) && SettledOnce(b) && Sound(b, c) && PayableIntent(b.intents[c.intent].status)
    requires Linked(Allocated(b, c))
    ensures SettledOnce(Allocated(b, c))
  {}

  // ----- steps that move no money -----

  /** Parking, resolving or marking a transfer changes only its state. */
  lemma MarkKeepsInv(b: Books, t: Id, state: Processing)
    requires Inv(b) && t in b.processing
    requires Undecided(state) ==> Undecided(b.processing[t].state)
    ensures Inv(b.(processing := b.processing[t := b.processing[t].(state := state)]))
  {
    var d := b.(processing := b.processing[t := b.processing[t].(state := state)]);
    assert Linked(d);
    forall u | u in d.transfers ensures TransferOk(d, u) { assert TransferOk(b, u); }
    DecisionsSame(b, d);
    RowsSame(b, d);
    StatusFrame(b, d);
  }

  /** A decision without money may replace any decision without money. */
  lemma NoteKeepsInv(b: Books, c: Command, kind: DecisionKind)
    requires Inv(b) && c.transfer in b.transfers && c.transfer !in b.claims && !MoneyKind(kind)
    ensures Inv(Decide(b, c, kind, 0, 0))
  {
    var d := Decide(b, c, kind, 0, 0);
    assert Linked(d);
    NoteKeepsTransfers(b, d, (c.intent, c.transfer));
    NoteKeepsDecisions(b, d, (c.intent, c.transfer));
    RowsSame(b, d);
    StatusFrame(b, d);
  }

  lemma NoteKeepsTransfers(b: Books, d: Books, key: (Id, Id))
    requires Linked(b) && Linked(d) && TransfersOk(b) && key.1 !in b.claims
    requires d == b.(decisions := d.decisions)
    requires forall k :: k in b.decisions && k != key ==> k in d.decisions && d.decisions[k] == b.decisions[k]
    ensures TransfersOk(d)
  {
    forall u | u in d.transfers ensures TransferOk(d, u) { assert TransferOk(b, u); }
  }

  lemma NoteKeepsDecisions(b: Books, d: Books, key: (Id, Id))
    requires Linked(b) && Linked(d) && DecisionsOk(b)
    requires d == b.(decisions := d.decisions) && key in d.decisions
    requires !MoneyKind(d.decisions[key].kind) && d.decisions[key].amount == 0 && d.decisions[key].remainder == 0
    requires forall k :: k in d.decisions && k != key ==> k in b.decisions && d.decisions[k] == b.decisions[k]
    ensures DecisionsOk(d)
  {
    forall k | k in d.decisions ensures DecisionOk(d, k) { if k != key { assert DecisionOk(b, k); } }
  }

  lemma FinishKeepsInv(b: Books, c: Command, kind: DecisionKind)
    requires Inv(b) && c.transfer in b.processing && Undecided(b.processing[c.transfer].state) && !MoneyKind(kind)
    ensures Inv(FinishWithoutMoney(b, c, kind))
  {
    assert TransferOk(b, c.transfer);
    MarkKeepsInv(b, c.transfer, Held);
    NoteKeepsInv(b.(processing := b.processing[c.transfer := b.processing[c.transfer].(state := Held)]), c, kind);
  }

  /** The settlement transaction keeps the invariant, whatever it answers. */
  lemma SettleKeepsInv(b: Books, c: Command)
    requires Inv(b) && Sound(b, c)
    ensures Inv(Settle(b, c).0)
  {
    if b.processing[c.transfer].state.Pending? {
      if c.outcome.Hold? {
        FinishKeepsInv(b, c, DHeld);
      } else if c.outcome.ManualRequired? {
        FinishKeepsInv(b, c, DManualRequired);
      } else if AllocateAndFinish(b, c).Ok? {
        AllocationKeepsInv(b, c);
      } else {
        AllocationOutcomes(b, c);
        FinishKeepsInv(b, c, DManualRequired);
      }
    }
  }

  lemma HonorIsSound(b: Books, h: HonorRequest)
    requires Inv(b) && h.allocate > 0 && PlanHonor(b, h).Ok?
    ensures var c := Command(h.transfer, h.attempt, h.intent, PlanHonor(b, h).value.merchant, PlanHonor(b, h).value.outcome);
            Sound(b, c) && Undecided(b.processing[h.transfer].state) && b.processing[h.transfer].spent == 0
  {
    assert TransferOk(b, h.transfer);
    NoRows(b.allocations, h.transfer);
  }

  /** The manual path splits money exactly as the automatic one would: on the
      same rows, any evidence that passes the gates decides the plan's outcome. */
  lemma HonorSplitsLikeSettlement(b: Books, h: HonorRequest, e: S.Evidence, tiers: seq<S.Tier>)
    requires Inv(b) && h.allocate > 0 && PlanHonor(b, h).Ok?
    requires S.MayMove(e, tiers)
    requires e.expected == b.attempts[h.attempt].expected && e.already == Total(b.allocations, h.attempt)
    requires e.arriving == b.transfers[h.transfer].amount
    ensures S.DecideSettlement(e, tiers).value == PlanHonor(b, h).value.outcome
  {
    HonorIsSound(b, h);
  }

  /** The rows an honor names exist and belong together. */
  predicate HonorRows(b: Books, h: HonorRequest) {
    h.transfer in b.transfers && h.attempt in b.attempts && b.attempts[h.attempt].intent == h.intent
  }

  /** The transfer is final and parked, attempt and intent may take it, and the
      request is exactly what it covers of what is owed. */
  ghost predicate Honorable(b: Books, h: HonorRequest)
    requires Linked(b) && HonorRows(b, h)
  {
    var owed := b.attempts[h.attempt].expected - Total(b.allocations, h.attempt);
    && b.finality[h.transfer].Finalized?
    && (b.processing[h.transfer].state.Held? || b.processing[h.transfer].state.Unmatched?)
    && b.transfers[h.transfer].collector == b.attempts[h.attempt].collector
    && b.transfers[h.transfer].rail == b.attempts[h.attempt].rail
    && b.transfers[h.transfer].blockTime < b.attempts[h.attempt].lateUntil
    && (b.attempts[h.attempt].status.AwaitingPayment? || b.attempts[h.attempt].status.Expired?)
    && TakesMoney(b.intents[h.intent].status)
    && h.allocate == Min(owed, b.transfers[h.transfer].amount)
  }

  /** An intent that is neither without a quote nor closed. */
  predicate TakesMoney(s: IntentStatus) { !s.RequiresQuote? && !s.Paid? && !s.Cancelled? }

  /** On consistent tables an honor fails only where its plan does: it goes through
      exactly when it is honorable, is not found exactly when its rows are
      missing, and is a conflict otherwise. */
  lemma HonorExactly(b: Books, h: HonorRequest)
    requires Inv(b) && h.allocate > 0
    ensures var r := Honor(b, h).1;
            && (r == Err(NotFound) <==> !HonorRows(b, h))
            && (r.Ok? <==> HonorRows(b, h) && Honorable(b, h))
            && (r.Err? ==> r.error.NotFound? || r.error.Conflict?)
  {
    if h.transfer in b.transfers && Undecided(b.processing[h.transfer].state) {
      assert TransferOk(b, h.transfer);
      NoRows(b.allocations, h.transfer);
    }
    if PlanHonor(b, h).Ok? {
      HonorIsSound(b, h);
      AllocationOutcomes(b, Command(h.transfer, h.attempt, h.intent, PlanHonor(b, h).value.merchant, PlanHonor(b, h).value.outcome));
    }
  }

  lemma HonorKeepsInv(b: Books, h: HonorRequest)
    requires Inv(b) && h.allocate > 0
    ensures Inv(Honor(b, h).0)
  {
    var plan := PlanHonor(b, h);
    if plan.Ok? {
      HonorIsSound(b, h);
      var c := Command(h.transfer, h.attempt, h.intent, plan.value.merchant, plan.value.outcome);
      if AllocateAndFinish(b, c).Ok? { AllocationKeepsInv(b, c); }
    }
  }

  lemma DisposeKeepsInv(b: Books, t: Id, intent: Id, remainder: nat)
    requires Inv(b)
    ensures Inv(Dispose(b, t, intent, remainder).0)
  {
    if Dispose(b, t, intent, remainder).1.Ok? {
      MarkKeepsInv(b, t, Resolved);
      var m := b.(processing := b.processing[t := b.processing[t].(state := Resolved)]);
      SideTablesKeepInv(m, Dispose(b, t, intent, remainder).0);
    }
  }

  /** Finality and dispositions are outside the money invariant. */
  lemma SideTablesKeepInv(b: Books, d: Books)
    requires Inv(b) && d == b.(finality := d.finality, dispositions := d.dispositions)
    requires d.finality.Keys == b.finality.Keys
    ensures Inv(d)
  {
    TransfersFrame(b, d);
    DecisionsFrame(b, d);
    RowsFrame(b, d);
    StatusFrame(b, d);
  }

  // ----- the world -----

  lemma {:induction false} UnknownTransfer(rows: seq<Allocation>, t: Id)
    requires forall i :: 0 <= i < |rows| ==> rows[i].transfer != t
    ensures RowCount(rows, t) == 0 && Spent(rows, t) == 0
  {
    if rows != [] { UnknownTransfer(rows[..|rows| - 1], t); }
  }

  lemma NewTransferOk(b: Books, t: Id, row: TransferRow)
    requires Linked(b) && RowsOk(b) && t !in b.transfers
    ensures TransferOk(AddTransfer(b, t, row), t)
  {
    forall i | 0 <= i < |b.allocations| ensures b.allocations[i].transfer != t { assert RowOk(b, b.allocations[i]); }
    UnknownTransfer(b.allocations, t);
  }

  lemma AddTransferKeepsInv(b: Books, t: Id, row: TransferRow)
    requires Inv(b)
    ensures Inv(AddTransfer(b, t, row))
  {
    if t !in b.transfers {
      var d := AddTransfer(b, t, row);
      assert Linked(d);
      NewTransferOk(b, t, row);
      forall u | u in d.transfers ensures TransferOk(d, u) { if u != t { assert TransferOk(b, u); } }
      DecisionsFrame(b, d);
      RowsFrame(b, d);
      StatusFrame(b, d);
    }
  }

  /** Steps of the world touch attempts and intents only: attempts keep what
      identifies them and never become settled, intents never become or stop
      being paid. */
  ghost predicate WorldStep(b: Books, d: Books) {
    && d == b.(attempts := d.attempts, intents := d.intents)
    && b.attempts.Keys <= d.attempts.Keys && b.intents.Keys <= d.intents.Keys
    && (forall a :: a in b.attempts ==>
          && d.attempts[a] == b.attempts[a].(status := d.attempts[a].status)
          && (d.attempts[a].status.Settled? <==> b.attempts[a].status.Settled?))
    && (forall a :: a in d.attempts && a !in b.attempts ==> !d.attempts[a].status.Settled?)
    && (forall i :: i in d.intents ==> (d.intents[i].status.Paid? <==> i in b.intents && b.intents[i].status.Paid?))
  }

  lemma WorldKeepsInv(b: Books, d: Books)
    requires Inv(b) && WorldStep(b, d) && Linked(d)
    ensures Inv(d)
  {
    TransfersFrame(b, d);
    DecisionsFrame(b, d);
    RowsFrame(b, d);
    WorldKeepsPaid(b, d);
    WorldKeepsSettled(b, d);
  }

  lemma WorldKeepsPaid(b: Books, d: Books)
    requires PaidOnce(b) && WorldStep(b, d)
    ensures PaidOnce(d)
  {}

  lemma WorldKeepsSettled(b: Books, d: Books)
    requires Linked(b) && Linked(d) && SettledOnce(b) && WorldStep(b, d)
    ensures SettledOnce(d)
  {}

  lemma AddIntentIsWorld(b: Books, i: Id, merchant: Id)
    requires Linked(b)
    ensures WorldStep(b, AddIntent(b, i, merchant)) && Linked(AddIntent(b, i, merchant))
  {}

  lemma AddAttemptIsWorld(b: Books, a: Id, row: AttemptRow)
    requires Linked(b)
    ensures WorldStep(b, AddAttempt(b, a, row)) && Linked(AddAttempt(b, a, row))
  {}

  lemma SweepIsWorld(b: Books, a: Id)
    requires Linked(b)
    ensures WorldStep(b, Sweep(b, a)) && Linked(Sweep(b, a))
  {}

  lemma CancelIsWorld(b: Books, i: Id)
    requires Linked(b)
    ensures WorldStep(b, Cancel(b, i)) && Linked(Cancel(b, i))
  {}
}
