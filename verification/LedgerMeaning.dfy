/** What each transaction on the money tables leaves behind, said of the rows it
    touches (crates/gateway-storage/src/settlement.rs, operations.rs and
    postgres/quotes.rs). */
module LedgerMeaning {
  import opened Common
  import S = Settlement
  import opened Ledger
  import opened LedgerInvariant

  // ----- settlement -----

  /** The rows let the command's money through. */
  ghost predicate Admits(b: Books, c: Command)
    requires Linked(b) && Sound(b, c)
  {
    && b.transfers[c.transfer].collector == b.attempts[c.attempt].collector
    && (b.attempts[c.attempt].status.AwaitingPayment? || b.attempts[c.attempt].status.Expired?)
    && TakesMoney(b.intents[c.intent].status)
  }

  /** Everything but the named rows is as it was. */
  ghost predicate OnlyTouches(b: Books, d: Books, c: Command) {
    && d.transfers == b.transfers && d.finality == b.finality && d.dispositions == b.dispositions
    && d.processing.Keys == b.processing.Keys && d.attempts.Keys == b.attempts.Keys && d.intents.Keys == b.intents.Keys
    && (forall t :: t in b.processing && t != c.transfer ==> d.processing[t] == b.processing[t])
    && (forall a :: a in b.attempts && a != c.attempt ==> d.attempts[a] == b.attempts[a])
    && (forall i :: i in b.intents && i != c.intent ==> d.intents[i] == b.intents[i])
    && (forall t :: t != c.transfer ==> (t in d.claims <==> t in b.claims) && (t in b.claims ==> d.claims[t] == b.claims[t]))
    && (forall k :: k != (c.intent, c.transfer) ==>
          (k in d.decisions <==> k in b.decisions) && (k in b.decisions ==> d.decisions[k] == b.decisions[k]))
  }

  /** The money landed: one row, the claim, and a decision that names what became of
      the attempt. A transfer is settled when nothing of it is left over and the
      attempt is complete; otherwise it is matched. */
  ghost predicate Landed(b: Books, d: Books, c: Command)
    requires Linked(b) && Sound(b, c) && S.MovesMoney(c.outcome)
  {
    var amount, remainder, key := c.outcome.allocate, b.transfers[c.transfer].amount - c.outcome.allocate, (c.intent, c.transfer);
    var complete := c.outcome.Settle? || c.outcome.Overpaid?;
    && OnlyTouches(b, d, c)
    && d.allocations == b.allocations + [Allocation(c.attempt, c.transfer, amount)]
    && c.transfer in d.claims && d.claims[c.transfer] == c.intent
    && key in d.decisions && d.decisions[key].amount == amount && d.decisions[key].remainder == remainder
    && (d.decisions[key].kind.DSettled? <==> complete && remainder == 0)
    && (d.decisions[key].kind.DOverpaid? <==> complete && remainder > 0)
    && (d.decisions[key].kind.DPartial? <==> !complete)
    && c.transfer in d.processing && d.processing[c.transfer].spent == amount
    && (d.processing[c.transfer].state.Settled? <==> complete && remainder == 0)
    && (d.processing[c.transfer].state.Matched? <==> !complete || remainder > 0)
    && c.attempt in d.attempts && (d.attempts[c.attempt].status.Settled? <==> complete)
    && (!complete ==> d.attempts[c.attempt] == b.attempts[c.attempt])
    && c.intent in d.intents && (d.intents[c.intent].status.Paid? <==> complete)
    && (d.intents[c.intent].status.PartiallyPaid? <==> !complete)
    && (complete ==> d.fulfilments == b.fulfilments + {c.intent} && d.paidEvents == b.paidEvents + [c.intent])
    && (!complete ==> d.fulfilments == b.fulfilments && d.paidEvents == b.paidEvents)
  }

  /** The transfer is parked for a person with a decision that moves nothing. */
  ghost predicate Parked(b: Books, d: Books, c: Command, kind: DecisionKind)
    requires c.transfer in b.processing
  {
    && OnlyTouches(b, d, c) && d.allocations == b.allocations && d.claims == b.claims
    && d.attempts == b.attempts && d.intents == b.intents && d.fulfilments == b.fulfilments && d.paidEvents == b.paidEvents
    && c.transfer in d.processing && d.processing[c.transfer] == ProcessingRow(Held, b.processing[c.transfer].spent)
    && (c.intent, c.transfer) in d.decisions && d.decisions[(c.intent, c.transfer)] == Decision(kind, 0, 0)
  }

  lemma ParkedSays(b: Books, c: Command, kind: DecisionKind)
    requires c.transfer in b.processing
    ensures Parked(b, FinishWithoutMoney(b, c, kind), c, kind)
  {}

  lemma LandedSays(b: Books, c: Command)
    requires Inv(b) && Sound(b, c) && S.MovesMoney(c.outcome) && Undecided(b.processing[c.transfer].state)
    requires AllocateAndFinish(b, c).Ok?
    ensures Landed(b, AllocateAndFinish(b, c).value.0, c)
  {
    assert TransferOk(b, c.transfer);
    NoRows(b.allocations, c.transfer);
    AllocationOutcomes(b, c);
    AllocationShape(b, c);
    assert c.intent !in b.fulfilments;
    AllocatedSays(b, c);
  }

  lemma AllocatedSays(b: Books, c: Command)
    requires Linked(b) && Sound(b, c) && S.MovesMoney(c.outcome)
    requires b.processing[c.transfer].spent == 0 && c.intent !in b.fulfilments && !b.attempts[c.attempt].status.Settled?
    ensures Landed(b, Allocated(b, c), c)
  {}

  /** Every answer of the settlement transaction: nothing happens to a transfer that
      is no longer pending; a hold or a manual decision parks it under that name;
      money lands exactly when the rows admit it, and is otherwise parked as
      manual. */
  lemma SettleSays(b: Books, c: Command)
    requires Inv(b) && Sound(b, c)
    ensures var (d, r) := Settle(b, c);
            if !b.processing[c.transfer].state.Pending? then d == b && r == Ok(RAlreadyProcessed)
            else if c.outcome.Hold? then Parked(b, d, c, DHeld) && r == Ok(RHeld)
            else if c.outcome.ManualRequired? || !Admits(b, c) then Parked(b, d, c, DManualRequired) && r == Ok(RManualRequired)
            else
              && Landed(b, d, c) && r.Ok?
              && (r.value.RSettled? <==> c.outcome.Settle?) && (r.value.ROverpaid? <==> c.outcome.Overpaid?)
              && (r.value.RPartiallyAllocated? <==> c.outcome.Partial?)
  {
    if b.processing[c.transfer].state.Pending? {
      if S.MovesMoney(c.outcome) {
        AllocationOutcomes(b, c);
        assert AllocateAndFinish(b, c).Ok? <==> Admits(b, c);
        if Admits(b, c) {
          LandedSays(b, c);
          assert Settle(b, c) == (AllocateAndFinish(b, c).value.0, Ok(RecordOf(c.outcome)));
        } else {
          ParkedSays(b, c, DManualRequired);
          assert Settle(b, c) == (FinishWithoutMoney(b, c, DManualRequired), Ok(RManualRequired));
        }
      } else {
        ParkedSays(b, c, if c.outcome.Hold? then DHeld else DManualRequired);
      }
    }
  }

  // ----- the allocation on any tables -----

  ghost predicate Replayed(b: Books, c: Command) {
    exists i :: 0 <= i < |b.allocations| && b.allocations[i].attempt == c.attempt && b.allocations[i].transfer == c.transfer
  }

  /** Attempt and intent belong to the command and still take money. */
  ghost predicate StillOpen(b: Books, c: Command) {
    && c.attempt in b.attempts && b.attempts[c.attempt].intent == c.intent
    && (b.attempts[c.attempt].status.AwaitingPayment? || b.attempts[c.attempt].status.Expired?)
    && c.intent in b.intents && b.intents[c.intent].merchant == c.merchant && TakesMoney(b.intents[c.intent].status)
  }

  /** The guards of an allocation on tables that need not be consistent: the wrong
      collector, a transfer that belongs to another intent, more than the transfer
      carries, a row that is already there, an empty amount, and closed rows are
      each caught, in this order. */
  lemma AllocateSays(b: Books, c: Command)
    requires c.transfer in b.transfers && c.transfer in b.processing && S.MovesMoney(c.outcome)
    ensures var r := AllocateAndFinish(b, c);
            var amount, spent := c.outcome.allocate, b.processing[c.transfer].spent;
            if c.attempt !in b.attempts || b.attempts[c.attempt].collector != b.transfers[c.transfer].collector then
              r == Err(TransitionRefused)
            else if c.transfer in b.claims && b.claims[c.transfer] != c.intent then
              r.Ok? && r.value.1.RForeignClaim? && Parked(b, r.value.0, c, DRejected)
            else if spent + amount > b.transfers[c.transfer].amount then r == Err(CorruptData)
            else if Replayed(b, c) then
              && r.Ok? && r.value.1.RAlreadyProcessed? && r.value.0.allocations == b.allocations
              && r.value.0.decisions == b.decisions && r.value.0.attempts == b.attempts && r.value.0.intents == b.intents
              && r.value.0.paidEvents == b.paidEvents && r.value.0.processing[c.transfer].spent == spent + amount
            else if amount == 0 then r == Err(CorruptData)
            else if !StillOpen(b, c) then r == Err(TransitionRefused)
            else
              && r.Ok? && r.value.0.allocations == b.allocations + [Allocation(c.attempt, c.transfer, amount)]
              && r.value.0.processing[c.transfer].spent == spent + amount
              && r.value.0.paidEvents
                 == if !c.outcome.Partial? && c.intent !in b.fulfilments then b.paidEvents + [c.intent] else b.paidEvents
  {}

  // ----- decisions by a person -----

  /** Only a recorded overpayment that is still matched can be disposed of, once and
      for exactly its remainder; then the transfer is closed. */
  lemma DisposeSays(b: Books, t: Id, intent: Id, remainder: nat)
    requires Inv(b)
    ensures var (d, r) := Dispose(b, t, intent, remainder);
            var key := (intent, t);
            var overpaid := key in b.decisions && b.decisions[key].kind.DOverpaid?;
            && (r == Err(NotFound) <==> !overpaid)
            && (r.Ok? <==> overpaid && b.decisions[key].remainder == remainder && key !in b.dispositions && b.processing[t].state.Matched?)
            && (r.Err? ==> d == b && (r.error.NotFound? || r.error.Conflict?))
            && (r.Ok? ==> && d == b.(processing := d.processing, dispositions := d.dispositions)
                          && d.dispositions == b.dispositions + {key}
                          && d.processing == b.processing[t := ProcessingRow(Resolved, b.processing[t].spent)])
  {}

  /** A rejection closes a final, parked transfer nothing was allocated from. */
  lemma RejectSays(b: Books, t: Id)
    ensures var (d, r) := Reject(b, t);
            var known := t in b.finality && t in b.processing;
            && (r == Err(NotFound) <==> !known)
            && (r.Ok? <==> && known && b.finality[t].Finalized?
                           && (b.processing[t].state.Held? || b.processing[t].state.Unmatched?)
                           && forall row :: row in b.allocations ==> row.transfer != t)
            && (r.Err? ==> d == b && (r.error.NotFound? || r.error.Conflict?))
            && (r.Ok? ==> d == b.(processing := b.processing[t := ProcessingRow(Resolved, b.processing[t].spent)]))
  {}

  /** On consistent tables the parked state alone says that nothing was allocated. */
  lemma RejectOnConsistentTables(b: Books, t: Id)
    requires Inv(b)
    ensures Reject(b, t).1.Ok? <==> && t in b.transfers && b.finality[t].Finalized?
                                    && (b.processing[t].state.Held? || b.processing[t].state.Unmatched?)
  {
    if t in b.transfers {
      assert TransferOk(b, t);
      if Undecided(b.processing[t].state) { NoRows(b.allocations, t); }
    }
  }

  /** What an honor asks of any tables, consistent or not. */
  ghost predicate Plannable(b: Books, h: HonorRequest)
    requires h.transfer in b.transfers && h.transfer in b.processing && h.transfer in b.finality
    requires h.attempt in b.attempts && h.intent in b.intents
  {
    var t, a, p, total := b.transfers[h.transfer], b.attempts[h.attempt], b.processing[h.transfer], Total(b.allocations, h.attempt);
    && b.finality[h.transfer].Finalized? && (p.state.Held? || p.state.Unmatched?)
    && t.collector == a.collector && t.rail == a.rail && t.blockTime < a.lateUntil
    && (a.status.AwaitingPayment? || a.status.Expired?) && TakesMoney(b.intents[h.intent].status)
    && total <= a.expected && p.spent <= t.amount && h.allocate == Min(a.expected - total, t.amount - p.spent)
  }

  lemma PlanSays(b: Books, h: HonorRequest)
    ensures var plan := PlanHonor(b, h);
            var known := && h.transfer in b.transfers && h.transfer in b.processing && h.transfer in b.finality
                         && h.attempt in b.attempts && h.intent in b.intents && b.attempts[h.attempt].intent == h.intent
                         && b.attempts[h.attempt].merchant == b.intents[h.intent].merchant;
            if !known then plan == Err(NotFound)
            else if !Plannable(b, h) then plan == Err(Conflict)
            else
              var rest := b.transfers[h.transfer].amount - b.processing[h.transfer].spent - h.allocate;
              var complete := h.allocate == b.attempts[h.attempt].expected - Total(b.allocations, h.attempt);
              && plan.Ok? && plan.value.merchant == b.intents[h.intent].merchant && plan.value.outcome.allocate == h.allocate
              && (plan.value.outcome.Partial? <==> !complete) && (plan.value.outcome.Settle? <==> complete && rest == 0)
              && (plan.value.outcome.Overpaid? <==> complete && rest > 0) && (complete && rest > 0 ==> plan.value.outcome.remainder == rest)
  {}

  /** An honor that was planned is refused only by what the allocation finds, and
      then changes nothing. */
  lemma HonorSays(b: Books, h: HonorRequest)
    ensures var plan, done := PlanHonor(b, h), Honor(b, h);
            if plan.Err? then done == (b, Err(plan.error))
            else
              var applied := AllocateAndFinish(b, Command(h.transfer, h.attempt, h.intent, plan.value.merchant, plan.value.outcome));
              && (done.1.Ok? <==> applied.Ok? && !applied.value.1.RForeignClaim? && !applied.value.1.RAlreadyProcessed?)
              && (done.1.Ok? ==> done == (applied.value.0, Ok(plan.value.outcome)))
              && (done.1 == Err(StorageFailed) <==> applied.Err? && applied.error.CorruptData?)
              && (done.1.Err? ==> done.0 == b && (done.1.error.StorageFailed? || done.1.error.Conflict?))
  {}

  /** Rows that are missing, and an allocation that finds the tables corrupt, fail
      the settlement and change nothing. */
  lemma SettleGuards(b: Books, c: Command)
    ensures var (d, r) := Settle(b, c);
            var known := c.transfer in b.transfers && c.transfer in b.processing;
            && (!known ==> d == b && r == Err(CorruptData))
            && (r.Err? ==> d == b && r.error.CorruptData?)
            && (known && b.processing[c.transfer].state.Pending? && S.MovesMoney(c.outcome) ==>
                  (r.Err? <==> AllocateAndFinish(b, c) == Err(CorruptData)))
  {}

  /** Only a pending transfer is handed to a person, and only its state changes. */
  lemma UnresolvedSays(b: Books, t: Id)
    ensures if t in b.processing && b.processing[t].state.Pending?
            then Unresolved(b, t) == b.(processing := b.processing[t := ProcessingRow(Unmatched, b.processing[t].spent)])
            else Unresolved(b, t) == b
  {}

  // ----- rows that come and go around the money -----

  /** The sweep expires an awaiting attempt, and its intent if that was awaiting. */
  lemma SweepSays(b: Books, a: Id)
    requires Linked(b)
    ensures var d := Sweep(b, a);
            if a in b.attempts && b.attempts[a].status.AwaitingPayment? then
              var i := b.attempts[a].intent;
              && d == b.(attempts := d.attempts, intents := d.intents)
              && d.attempts == b.attempts[a := b.attempts[a].(status := S.Expired)]
              && d.intents == b.intents[i := d.intents[i]] && d.intents[i].merchant == b.intents[i].merchant
              && d.intents[i].status == if b.intents[i].status.AwaitingPayment? then IntentStatus.Expired else b.intents[i].status
            else d == b
  {
    if a in b.attempts && b.attempts[a].status.AwaitingPayment? {
      var i := b.attempts[a].intent;
      assert b.intents[i].(status := b.intents[i].status) == b.intents[i];
    }
  }

  /** An intent enters once, without a quote. */
  lemma AddIntentSays(b: Books, i: Id, merchant: Id)
    ensures AddIntent(b, i, merchant)
            == if i in b.intents then b else b.(intents := b.intents[i := IntentRow(merchant, RequiresQuote)])
  {}

  /** A quote opens an attempt exactly for an intent of the same merchant that has
      none open, and puts the intent back to awaiting. */
  lemma AddAttemptSays(b: Books, a: Id, row: AttemptRow)
    ensures var d := AddAttempt(b, a, row);
            if a !in b.attempts && row.status.AwaitingPayment? && row.intent in b.intents
               && b.intents[row.intent].merchant == row.merchant
               && (b.intents[row.intent].status.RequiresQuote? || b.intents[row.intent].status.Expired?)
            then && d == b.(attempts := b.attempts[a := row], intents := d.intents)
                 && d.intents == b.intents[row.intent := IntentRow(row.merchant, IntentStatus.AwaitingPayment)]
            else d == b
  {}

  /** A cancellation closes an intent that is unquoted, awaiting or expired and that
      no decision and no claim names, with exactly its own awaiting attempts. */
  lemma CancelSays(b: Books, i: Id)
    ensures var d := Cancel(b, i);
            if && i in b.intents
               && (b.intents[i].status.RequiresQuote? || b.intents[i].status.AwaitingPayment? || b.intents[i].status.Expired?)
               && (forall k :: k in b.decisions ==> k.0 != i) && (forall t :: t in b.claims ==> b.claims[t] != i)
            then && d == b.(attempts := d.attempts, intents := b.intents[i := IntentRow(b.intents[i].merchant, Cancelled)])
                 && d.attempts.Keys == b.attempts.Keys
                 && (forall a :: a in b.attempts ==>
                       d.attempts[a] == if b.attempts[a].intent == i && b.attempts[a].status.AwaitingPayment?
                                        then b.attempts[a].(status := S.Cancelled) else b.attempts[a])
            else d == b
  {}

  /** Finality is kept as given, for known transfers. */
  lemma SetFinalitySays(b: Books, t: Id, state: S.TransferState)
    ensures SetFinality(b, t, state) == if t in b.finality then b.(finality := b.finality[t := state]) else b
  {}

  /** A transfer enters once, canonical, pending and unspent. */
  lemma AddTransferSays(b: Books, t: Id, row: TransferRow)
    ensures var d := AddTransfer(b, t, row);
            if t in b.transfers then d == b
            else && d == b.(transfers := d.transfers, finality := d.finality, processing := d.processing)
                 && d.transfers == b.transfers[t := row] && d.finality == b.finality[t := S.Canonical]
                 && d.processing == b.processing[t := ProcessingRow(Pending, 0)]
  {}
}
