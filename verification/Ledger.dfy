/** The money tables and every transaction that changes them: automatic
    settlement (crates/gateway-storage/src/settlement.rs), manual honors,
    rejections and remainder dispositions (operations.rs), the expiry sweep and
    new rows (postgres/quotes.rs). One transaction is one atomic step. The
    decision an automatic settlement commits was computed earlier, from a
    snapshot read outside its transaction, so other steps may come between. */
module Ledger {
  import opened Common
  import opened Money
  import S = Settlement

  datatype Processing = Pending | Matched | Settled | Unmatched | Held | Resolved

  datatype IntentStatus = RequiresQuote | AwaitingPayment | PartiallyPaid | RiskHold | Paid | Expired | Cancelled

  datatype TransferRow = TransferRow(amount: Amount, collector: Id, rail: Id, blockTime: Instant)

  datatype ProcessingRow = ProcessingRow(state: Processing, spent: nat)

  datatype AttemptRow = AttemptRow(
    intent: Id, merchant: Id, collector: Id, rail: Id, expected: Amount, lateUntil: Instant, status: S.AttemptStatus)

  datatype IntentRow = IntentRow(merchant: Id, status: IntentStatus)

  datatype Allocation = Allocation(attempt: Id, transfer: Id, amount: nat)

  datatype DecisionKind = DSettled | DPartial | DOverpaid | DHeld | DManualRequired | DRejected

  datatype Decision = Decision(kind: DecisionKind, amount: nat, remainder: nat)

  datatype Books = Books(
    transfers: map<Id, TransferRow>,
    finality: map<Id, S.TransferState>,
    processing: map<Id, ProcessingRow>,
    attempts: map<Id, AttemptRow>,
    intents: map<Id, IntentRow>,
    claims: map<Id, Id>,
    allocations: seq<Allocation>,
    decisions: map<(Id, Id), Decision>,
    fulfilments: set<Id>,
    paidEvents: seq<Id>,
    dispositions: set<(Id, Id)>)

  /** What has been allocated to one attempt. */
  function Total(rows: seq<Allocation>, attempt: Id): nat {
    if rows == [] then 0
    else Total(rows[..|rows| - 1], attempt)
         + if rows[|rows| - 1].attempt == attempt then rows[|rows| - 1].amount else 0
  }

  /** What has been allocated from one transfer, and in how many rows. */
  function Spent(rows: seq<Allocation>, transfer: Id): nat {
    if rows == [] then 0
    else Spent(rows[..|rows| - 1], transfer)
         + if rows[|rows| - 1].transfer == transfer then rows[|rows| - 1].amount else 0
  }

  function RowCount(rows: seq<Allocation>, transfer: Id): nat {
    if rows == [] then 0
    else RowCount(rows[..|rows| - 1], transfer) + if rows[|rows| - 1].transfer == transfer then 1 else 0
  }

  lemma AppendRow(rows: seq<Allocation>, row: Allocation)
    ensures forall a :: Total(rows + [row], a) == Total(rows, a) + if row.attempt == a then row.amount else 0
    ensures forall t :: Spent(rows + [row], t) == Spent(rows, t) + if row.transfer == t then row.amount else 0
    ensures forall t :: RowCount(rows + [row], t) == RowCount(rows, t) + if row.transfer == t then 1 else 0
  {
    assert (rows + [row])[..|rows|] == rows;
  }

  lemma {:induction false} NoRows(rows: seq<Allocation>, t: Id)
    requires RowCount(rows, t) == 0
    ensures Spent(rows, t) == 0
    ensures forall i :: 0 <= i < |rows| ==> rows[i].transfer != t
  {
    if rows != [] { NoRows(rows[..|rows| - 1], t); }
  }

  // ----- the settlement transaction -----

  datatype Command = Command(transfer: Id, attempt: Id, intent: Id, merchant: Id, outcome: S.Outcome)

  datatype Record =
    | RSettled | RPartiallyAllocated | ROverpaid | RHeld | RManualRequired | RForeignClaim | RAlreadyProcessed

  datatype TxError = TransitionRefused | CorruptData

  predicate PayableIntent(s: IntentStatus) { s.AwaitingPayment? || s.PartiallyPaid? || s.RiskHold? || s.Expired? }

  predicate AllocatableAttempt(s: S.AttemptStatus) { s.AwaitingPayment? || s.Expired? }

  function KindOf(o: S.Outcome): DecisionKind {
    match o
    case Settle(_) => DSettled
    case Partial(_) => DPartial
    case Overpaid(_, _) => DOverpaid
    case Hold(_) => DHeld
    case ManualRequired(_) => DManualRequired
  }

  /** `record_decision`: the row of this intent and transfer is inserted or
      overwritten. */
  function Decide(b: Books, c: Command, kind: DecisionKind, amount: nat, remainder: nat): Books {
    b.(decisions := b.decisions[(c.intent, c.transfer) := Decision(kind, amount, remainder)])
  }

  /** `advance_to_paid` / `advance_to_partially_paid`: both rows must be open. */
  function Advance(b: Books, c: Command): (r: Result<Books, TxError>) {
    if c.attempt !in b.attempts || b.attempts[c.attempt].intent != c.intent
       || !AllocatableAttempt(b.attempts[c.attempt].status) then Err(TransitionRefused)
    else if c.intent !in b.intents || b.intents[c.intent].merchant != c.merchant
            || !PayableIntent(b.intents[c.intent].status) then Err(TransitionRefused)
    else if S.Completes(c.outcome) then
      Ok(b.(attempts := b.attempts[c.attempt := b.attempts[c.attempt].(status := S.Settled)],
            intents := b.intents[c.intent := b.intents[c.intent].(status := Paid)],
            fulfilments := b.fulfilments + {c.intent},
            paidEvents := if c.intent in b.fulfilments then b.paidEvents else b.paidEvents + [c.intent]))
    else
      Ok(b.(intents := b.intents[c.intent := b.intents[c.intent].(status := PartiallyPaid)]))
  }

  function RecordOf(o: S.Outcome): Record {
    if o.Settle? then RSettled else if o.Overpaid? then ROverpaid else RPartiallyAllocated
  }

  /** `allocate_and_finish`: claim, allocation ceiling, allocation row,
      status changes, decision. */
  function AllocateAndFinish(b: Books, c: Command): (r: Result<(Books, Record), TxError>)
    requires c.transfer in b.transfers && c.transfer in b.processing && S.MovesMoney(c.outcome)
  {
    if c.attempt !in b.attempts || b.attempts[c.attempt].collector != b.transfers[c.transfer].collector then
      Err(TransitionRefused)  // the composite foreign keys of migration 0014
    else if c.transfer in b.claims && b.claims[c.transfer] != c.intent then
      var parked := b.(processing := b.processing[c.transfer := b.processing[c.transfer].(state := Held)]);
      Ok((Decide(parked, c, DRejected, 0, 0), RForeignClaim))
    else
      var claimed := b.(claims := b.claims[c.transfer := c.intent]);
      var row := b.processing[c.transfer];
      var amount := S.AllocatedBy(c.outcome);
      if row.spent + amount > b.transfers[c.transfer].amount then Err(CorruptData)
      else
        var state := if c.outcome.Settle? then Settled else Matched;
        var moved := claimed.(processing := b.processing[c.transfer := ProcessingRow(state, row.spent + amount)]);
        if exists i :: 0 <= i < |b.allocations| && b.allocations[i].attempt == c.attempt && b.allocations[i].transfer == c.transfer then
          Ok((moved, RAlreadyProcessed))
        else if amount == 0 then Err(CorruptData)  // CHECK (allocated_raw > 0)
        else
          var paid := Advance(moved.(allocations := b.allocations + [Allocation(c.attempt, c.transfer, amount)]), c);
          if paid.Err? then Err(paid.error)
          else Ok((Decide(paid.value, c, KindOf(c.outcome), amount, S.RemainderOf(c.outcome)), RecordOf(c.outcome)))
  }

  /** `finish_without_money`. */
  function FinishWithoutMoney(b: Books, c: Command, kind: DecisionKind): Books
    requires c.transfer in b.processing
  {
    Decide(b.(processing := b.processing[c.transfer := b.processing[c.transfer].(state := Held)]), c, kind, 0, 0)
  }

  /** `settle`: only a pending transfer is acted on; a refused transition rolls
      everything back and parks the transfer for a person. */
  function Settle(b: Books, c: Command): (r: (Books, Result<Record, TxError>)) {
    if c.transfer !in b.processing || c.transfer !in b.transfers then (b, Err(CorruptData))
    else if b.processing[c.transfer].state != Pending then (b, Ok(RAlreadyProcessed))
    else if c.outcome.Hold? then (FinishWithoutMoney(b, c, DHeld), Ok(RHeld))
    else if c.outcome.ManualRequired? then (FinishWithoutMoney(b, c, DManualRequired), Ok(RManualRequired))
    else
      var applied := AllocateAndFinish(b, c);
      if applied.Ok? then (applied.value.0, Ok(applied.value.1))
      else if applied.error == TransitionRefused then (FinishWithoutMoney(b, c, DManualRequired), Ok(RManualRequired))
      else (b, Err(CorruptData))
  }

  /** `record_unresolved`. */
  function Unresolved(b: Books, t: Id): Books {
    if t in b.processing && b.processing[t].state == Pending
    then b.(processing := b.processing[t := b.processing[t].(state := Unmatched)]) else b
  }

  // ----- manual decisions -----

  datatype OperationsError = NotFound | Conflict | StorageFailed

  datatype HonorRequest = HonorRequest(transfer: Id, intent: Id, attempt: Id, allocate: U256)

  datatype HonorPlan = HonorPlan(merchant: Id, outcome: S.Outcome)

  /** `honor_is_bound` on the joined row. */
  predicate HonorIsBound(t: TransferRow, a: AttemptRow, i: IntentRow) {
    && t.collector == a.collector && t.rail == a.rail
    && AllocatableAttempt(a.status) && PayableIntent(i.status)
    && t.blockTime < a.lateUntil
  }

  /** `plan_honor`: everything an honor depends on, read from the rows. */
  function PlanHonor(b: Books, h: HonorRequest): (r: Result<HonorPlan, OperationsError>)
    ensures r.Ok? ==> S.MovesMoney(r.value.outcome) && S.AllocatedBy(r.value.outcome) == h.allocate
  {
    if !(h.attempt in b.attempts && h.intent in b.intents && h.transfer in b.transfers
         && h.transfer in b.processing && h.transfer in b.finality)
       || b.attempts[h.attempt].intent != h.intent
       || b.attempts[h.attempt].merchant != b.intents[h.intent].merchant then Err(NotFound)
    else
      var t, a, i := b.transfers[h.transfer], b.attempts[h.attempt], b.intents[h.intent];
      var row := b.processing[h.transfer];
      if b.finality[h.transfer] != S.Finalized || !(row.state.Held? || row.state.Unmatched?) then Err(Conflict)
      else if !HonorIsBound(t, a, i) then Err(Conflict)
      else if Total(b.allocations, h.attempt) > a.expected then Err(Conflict)
      else if row.spent > t.amount then Err(Conflict)
      else
        var outstanding: U256 := a.expected - Total(b.allocations, h.attempt);
        var available: U256 := t.amount - row.spent;
        if h.allocate != Min(outstanding, available) then Err(Conflict)
        else
          var remainder := available - h.allocate;
          var completes := h.allocate == outstanding;
          var outcome :=
            if completes && remainder != 0 then S.Overpaid(h.allocate, remainder)
            else if completes then S.Settle(h.allocate)
            else S.Partial(h.allocate);
          Ok(HonorPlan(i.merchant, outcome))
  }

  /** `honor_transfer` up to its resolution row: plan, then the same allocation
      the automatic path runs; anything but an allocation rolls back. */
  function Honor(b: Books, h: HonorRequest): (r: (Books, Result<S.Outcome, OperationsError>)) {
    var plan := PlanHonor(b, h);
    if plan.Err? then (b, Err(plan.error))
    else
      var applied := AllocateAndFinish(b, Command(h.transfer, h.attempt, h.intent, plan.value.merchant, plan.value.outcome));
      if applied.Err? then (b, Err(if applied.error == TransitionRefused then Conflict else StorageFailed))
      else if applied.value.1.RForeignClaim? || applied.value.1.RAlreadyProcessed? then (b, Err(Conflict))
      else (applied.value.0, Ok(plan.value.outcome))
  }

  /** `reject_transfer`. */
  function Reject(b: Books, t: Id): (r: (Books, Result<(), OperationsError>)) {
    if t !in b.finality || t !in b.processing then (b, Err(NotFound))
    else if b.finality[t] != S.Finalized || !(b.processing[t].state.Held? || b.processing[t].state.Unmatched?) then (b, Err(Conflict))
    else if exists i :: 0 <= i < |b.allocations| && b.allocations[i].transfer == t then (b, Err(Conflict))
    else (b.(processing := b.processing[t := b.processing[t].(state := Resolved)]), Ok(()))
  }

  /** `record_external_disposition`: only a recorded overpayment's exact
      remainder, once. */
  function Dispose(b: Books, t: Id, intent: Id, remainder: nat): (r: (Books, Result<(), OperationsError>)) {
    if (intent, t) !in b.decisions || !b.decisions[(intent, t)].kind.DOverpaid? then (b, Err(NotFound))
    else if b.decisions[(intent, t)].remainder != remainder then (b, Err(Conflict))
    else if (intent, t) in b.dispositions then (b, Err(Conflict))
    else if t !in b.processing || !b.processing[t].state.Matched? then (b, Err(Conflict))
    else (b.(dispositions := b.dispositions + {(intent, t)},
             processing := b.processing[t := b.processing[t].(state := Resolved)]), Ok(()))
  }

  // ----- the world around the money path -----

  function AddIntent(b: Books, i: Id, merchant: Id): Books {
    if i in b.intents then b else b.(intents := b.intents[i := IntentRow(merchant, RequiresQuote)])
  }

  /** A quote opens an attempt and puts its intent back to awaiting. */
  function AddAttempt(b: Books, a: Id, row: AttemptRow): Books {
    if a in b.attempts || row.intent !in b.intents || row.merchant != b.intents[row.intent].merchant
       || row.status != S.AwaitingPayment
       || !(b.intents[row.intent].status.RequiresQuote? || b.intents[row.intent].status.Expired?) then b
    else b.(attempts := b.attempts[a := row],
            intents := b.intents[row.intent := b.intents[row.intent].(status := AwaitingPayment)])
  }

  function AddTransfer(b: Books, t: Id, row: TransferRow): Books {
    if t in b.transfers then b
    else b.(transfers := b.transfers[t := row], finality := b.finality[t := S.Canonical],
            processing := b.processing[t := ProcessingRow(Pending, 0)])
  }

  function SetFinality(b: Books, t: Id, state: S.TransferState): Books {
    if t in b.finality then b.(finality := b.finality[t := state]) else b
  }

  /** The expiry sweep on one due attempt. */
  function Sweep(b: Books, a: Id): Books {
    if a !in b.attempts || b.attempts[a].status != S.AwaitingPayment || b.attempts[a].intent !in b.intents then b
    else
      var i := b.attempts[a].intent;
      var status := if b.intents[i].status.AwaitingPayment? then Expired else b.intents[i].status;
      b.(attempts := b.attempts[a := b.attempts[a].(status := S.Expired)],
         intents := b.intents[i := b.intents[i].(status := status)])
  }

  predicate Cancellable(s: IntentStatus) { s.RequiresQuote? || s.AwaitingPayment? || s.Expired? }

  /** Money was claimed for the intent, or something was decided about it. */
  predicate Touched(b: Books, i: Id) {
    (exists k :: k in b.decisions && k.0 == i) || (exists t :: t in b.claims && b.claims[t] == i)
  }

  /** A merchant cancels an intent nothing has happened to, with its awaiting
      attempts; expired ones stay as they are. */
  function Cancel(b: Books, i: Id): Books {
    if i !in b.intents || !Cancellable(b.intents[i].status) || Touched(b, i) then b
    else b.(intents := b.intents[i := b.intents[i].(status := Cancelled)],
            attempts := map a | a in b.attempts ::
              if b.attempts[a].intent == i && b.attempts[a].status.AwaitingPayment?
              then b.attempts[a].(status := S.Cancelled) else b.attempts[a])
  }
}
