/** The money tables as the transactions change them, row by row, proved equal
    to the atomic steps of `Ledger`; and the settlement pass over a batch. */
module LedgerStore {
  import opened Common
  import S = Settlement
  import opened Ledger
  import L = Ledger
  import opened LedgerInvariant
  import R = LedgerRuns
  import B = LedgerBounds
  import M = LedgerMeaning

  /** One transfer of a batch with what the pass reads for it. */
  datatype Item = Item(
    facts: S.Transfer, candidates: seq<S.Candidate>, fiatMinor: int, groups: nat, hadOwnNode: bool, risk: S.Risk,
    tiers: Option<seq<S.Tier>>)

  datatype Tally =
    | TSettled | TPartial | TOverpaid | THeld | TManualRequired
    | TAmbiguous | TUnmatched | TForeignClaim | TAlreadyProcessed | TMissingPolicy

  function TallyOf(r: Record): Tally {
    match r
    case RSettled => TSettled
    case RPartiallyAllocated => TPartial
    case ROverpaid => TOverpaid
    case RHeld => THeld
    case RManualRequired => TManualRequired
    case RForeignClaim => TForeignClaim
    case RAlreadyProcessed => TAlreadyProcessed
  }

  function FindingsOf(item: Item, late: bool): R.Findings
    requires item.tiers.Some?
  {
    R.Findings(item.fiatMinor, item.groups, item.hadOwnNode, item.risk, late, item.tiers.value)
  }

  /** `settle_pending` on one transfer: match, snapshot, decide, commit. */
  function SettleItem(b: Books, item: Item): (r: Result<(Books, Tally), TxError>) {
    var t := item.facts.transferId;
    var m := S.MatchTransfer(item.facts, item.candidates);
    if m.Ambiguous? then Ok((Unresolved(b, t), TAmbiguous))
    else if m.Unmatched? then Ok((Unresolved(b, t), TUnmatched))
    else if m.attemptId !in b.attempts then Err(CorruptData)
    else if item.tiers.None? then Ok((b, TMissingPolicy))
    else
      var decided := R.Decided(b, t, m.attemptId, FindingsOf(item, m.late));
      if decided.None? then Err(CorruptData)
      else
        var done := L.Settle(b, decided.value.command);
        if done.1.Err? then Err(done.1.error) else Ok((done.0, TallyOf(done.1.value)))
  }

  /** What one transfer of a pass comes to: no match or several leave it to a person,
      a missing policy leaves it alone, a vanished attempt fails the pass, and
      otherwise the tally names what the commit did. */
  lemma ItemSays(b: Books, item: Item)
    requires Inv(b)
    ensures var t, m, r := item.facts.transferId, S.MatchTransfer(item.facts, item.candidates), SettleItem(b, item);
            && (m.Ambiguous? ==> r == Ok((Unresolved(b, t), TAmbiguous)))
            && (m.Unmatched? ==> r == Ok((Unresolved(b, t), TUnmatched)))
            && (m.Matched? && m.attemptId !in b.attempts ==> r == Err(CorruptData))
            && (m.Matched? && m.attemptId in b.attempts && item.tiers.None? ==> r == Ok((b, TMissingPolicy)))
            && (m.Matched? && m.attemptId in b.attempts && item.tiers.Some? ==>
                  var decided := R.Decided(b, t, m.attemptId, FindingsOf(item, m.late));
                  && (decided.None? ==> r == Err(CorruptData))
                  && (decided.Some? ==> r.Ok? && r.value.0 == L.Settle(b, decided.value.command).0
                                        && TallySays(b, decided.value.command, r.value.1)))
  {
    var m := S.MatchTransfer(item.facts, item.candidates);
    if m.Matched? && m.attemptId in b.attempts && item.tiers.Some? {
      var decided := R.Decided(b, item.facts.transferId, m.attemptId, FindingsOf(item, m.late));
      if decided.Some? {
        R.DecidedOk(b, item.facts.transferId, m.attemptId, FindingsOf(item, m.late));
        CommitIsTallied(b, decided.value.command);
      }
    }
  }

  lemma CommitIsTallied(b: Books, c: Command)
    requires Inv(b) && Sound(b, c)
    ensures L.Settle(b, c).1.Ok? && TallySays(b, c, TallyOf(L.Settle(b, c).1.value))
  {
    M.SettleSays(b, c);
  }

  /** One counter per way a commit can end. */
  ghost predicate TallySays(b: Books, c: Command, tally: Tally)
    requires Linked(b) && Sound(b, c)
  {
    var pending := b.processing[c.transfer].state.Pending?;
    var lands := pending && S.MovesMoney(c.outcome) && M.Admits(b, c);
    && (tally.TAlreadyProcessed? <==> !pending)
    && (tally.THeld? <==> pending && c.outcome.Hold?)
    && (tally.TManualRequired? <==> pending && !c.outcome.Hold? && !lands)
    && (tally.TSettled? <==> lands && c.outcome.Settle?)
    && (tally.TOverpaid? <==> lands && c.outcome.Overpaid?)
    && (tally.TPartial? <==> lands && c.outcome.Partial?)
  }

  /** A foreign claim, which consistent tables rule out, has its own counter. */
  lemma EveryRecordIsTallied(r: Record, q: Record)
    ensures TallyOf(r) == TallyOf(q) <==> r == q
    ensures TallyOf(RForeignClaim) == TForeignClaim
  {}

  /** A whole pass, one transfer after the other. */
  function Pass(b: Books, batch: seq<Item>): (r: Result<(Books, seq<Tally>), TxError>)
    ensures r.Ok? ==> |r.value.1| == |batch|
    decreases |batch|
  {
    if batch == [] then Ok((b, []))
    else
      var front := Pass(b, batch[..|batch| - 1]);
      if front.Err? then front
      else
        var last := SettleItem(front.value.0, batch[|batch| - 1]);
        if last.Err? then Err(last.error) else Ok((last.value.0, front.value.1 + [last.value.1]))
  }

  /** A decision committed at once is always fresh. */
  lemma SnapshotCommitKeepsBounded(b: Books, t: Id, a: Id, f: R.Findings)
    requires Inv(b) && B.Bounded(b) && R.Decided(b, t, a, f).Some?
    ensures var d := L.Settle(b, R.Decided(b, t, a, f).value.command).0; Inv(d) && B.Bounded(d)
  {
    var flight := R.Decided(b, t, a, f).value;
    R.DecidedOk(b, t, a, f);
    SettleKeepsInv(b, flight.command);
    B.PromptCommitKeepsBounded(b, flight);
  }

  /** A transfer settled on its own snapshot keeps every invariant, including
      the bound. */
  lemma SettleItemKeepsBounded(b: Books, item: Item)
    requires Inv(b) && B.Bounded(b) && SettleItem(b, item).Ok?
    ensures Inv(SettleItem(b, item).value.0) && B.Bounded(SettleItem(b, item).value.0)
  {
    var t := item.facts.transferId;
    var m := S.MatchTransfer(item.facts, item.candidates);
    if m.Ambiguous? || m.Unmatched? {
      R.ManageKeepsInv(b, R.LeaveUnresolved(t));
      R.DeskNoRow(b, R.LeaveUnresolved(t));
      B.NoRowKeepsBounded(b, Unresolved(b, t));
    } else if item.tiers.Some? {
      SnapshotCommitKeepsBounded(b, t, m.attemptId, FindingsOf(item, m.late));
    }
  }

  /** An uninterrupted pass over any batch never allocates an attempt more than
      it expects, and accounts for every transfer it examined. */
  lemma {:induction false} PassKeepsBounded(b: Books, batch: seq<Item>)
    requires Inv(b) && B.Bounded(b) && Pass(b, batch).Ok?
    ensures Inv(Pass(b, batch).value.0) && B.Bounded(Pass(b, batch).value.0)
    decreases |batch|
  {
    if batch != [] {
      PassKeepsBounded(b, batch[..|batch| - 1]);
      SettleItemKeepsBounded(Pass(b, batch[..|batch| - 1]).value.0, batch[|batch| - 1]);
    }
  }

  class Store {
    var transfers: map<Id, TransferRow>
    var finality: map<Id, S.TransferState>
    var processing: map<Id, ProcessingRow>
    var attempts: map<Id, AttemptRow>
    var intents: map<Id, IntentRow>
    var claims: map<Id, Id>
    var allocations: seq<Allocation>
    var decisions: map<(Id, Id), Decision>
    var fulfilments: set<Id>
    var paidEvents: seq<Id>
    var dispositions: set<(Id, Id)>

    function Tables(): Books
      reads this
    {
      Books(transfers, finality, processing, attempts, intents, claims, allocations, decisions, fulfilments, paidEvents, dispositions)
    }

    /** Abandons a transaction: every table is as it was when it began. */
    method Rollback(start: Books)
      modifies this
      ensures Tables() == start
    {
      transfers, finality, processing, attempts := start.transfers, start.finality, start.processing, start.attempts;
      intents, claims, allocations, decisions := start.intents, start.claims, start.allocations, start.decisions;
      fulfilments, paidEvents, dispositions := start.fulfilments, start.paidEvents, start.dispositions;
    }

    /** Claims the transfer for the command's intent; false when another intent
        already owns it, in which case the transfer is parked. */
    method ClaimTransfer(c: Command) returns (owned: bool)
      requires c.transfer in processing
      modifies this
      ensures owned <==> !(c.transfer in old(claims) && old(claims)[c.transfer] != c.intent)
      ensures owned ==> Tables() == old(Tables()).(claims := old(claims)[c.transfer := c.intent])
      ensures !owned ==> Tables() == FinishWithoutMoney(old(Tables()), c, DRejected)
    {
      if c.transfer !in claims {
        claims := claims[c.transfer := c.intent];
      }
      owned := claims[c.transfer] == c.intent;
      if owned {
        assert claims == old(claims)[c.transfer := c.intent];
      } else {
        processing := processing[c.transfer := processing[c.transfer].(state := Held)];
        decisions := decisions[(c.intent, c.transfer) := Decision(DRejected, 0, 0)];
      }
    }

    /** Opens nothing: both rows must be open, then they move together. */
    method AdvanceStatuses(c: Command) returns (r: Result<(), TxError>)
      modifies this
      ensures r.Ok? <==> Advance(old(Tables()), c).Ok?
      ensures r.Err? ==> r.error == TransitionRefused
      ensures r.Ok? ==> Tables() == Advance(old(Tables()), c).value
    {
      if c.attempt !in attempts || attempts[c.attempt].intent != c.intent || !AllocatableAttempt(attempts[c.attempt].status) {
        return Err(TransitionRefused);
      }
      if S.Completes(c.outcome) {
        attempts := attempts[c.attempt := attempts[c.attempt].(status := S.Settled)];
      }
      if c.intent !in intents || intents[c.intent].merchant != c.merchant || !PayableIntent(intents[c.intent].status) {
        return Err(TransitionRefused);
      }
      if S.Completes(c.outcome) {
        intents := intents[c.intent := intents[c.intent].(status := Paid)];
        if c.intent !in fulfilments {
          fulfilments := fulfilments + {c.intent};
          paidEvents := paidEvents + [c.intent];
        }
        assert fulfilments == old(fulfilments) + {c.intent};
      } else {
        intents := intents[c.intent := intents[c.intent].(status := PartiallyPaid)];
      }
      return Ok(());
    }

    method Allocate(c: Command) returns (r: Result<Record, TxError>)
      requires c.transfer in transfers && c.transfer in processing && S.MovesMoney(c.outcome)
      modifies this
      ensures var spec := L.AllocateAndFinish(old(Tables()), c);
              if spec.Ok? then Tables() == spec.value.0 && r == Ok(spec.value.1) else r == Err(spec.error)
    {
      ghost var start := Tables();
      if c.attempt !in attempts || attempts[c.attempt].collector != transfers[c.transfer].collector {
        return Err(TransitionRefused);
      }
      var owned := ClaimTransfer(c);
      if !owned {
        return Ok(RForeignClaim);
      }
      var amount := S.AllocatedBy(c.outcome);
      if processing[c.transfer].spent + amount > transfers[c.transfer].amount {
        return Err(CorruptData);
      }
      processing := processing[c.transfer :=
        ProcessingRow(if c.outcome.Settle? then L.Settled else L.Matched, processing[c.transfer].spent + amount)];
      var duplicate := exists i :: 0 <= i < |allocations| && allocations[i].attempt == c.attempt && allocations[i].transfer == c.transfer;
      if duplicate {
        return Ok(RAlreadyProcessed);
      }
      if amount == 0 {
        return Err(CorruptData);
      }
      allocations := allocations + [Allocation(c.attempt, c.transfer, amount)];
      var advanced := AdvanceStatuses(c);
      if advanced.Err? {
        return Err(advanced.error);
      }
      decisions := decisions[(c.intent, c.transfer) := Decision(KindOf(c.outcome), amount, S.RemainderOf(c.outcome))];
      return Ok(RecordOf(c.outcome));
    }

    /** `finish_without_money`. */
    method Park(c: Command, kind: DecisionKind)
      requires c.transfer in processing
      modifies this
      ensures Tables() == FinishWithoutMoney(old(Tables()), c, kind)
    {
      processing := processing[c.transfer := processing[c.transfer].(state := Held)];
      decisions := decisions[(c.intent, c.transfer) := Decision(kind, 0, 0)];
    }

    method Settle(c: Command) returns (r: Result<Record, TxError>)
      modifies this
      ensures Tables() == L.Settle(old(Tables()), c).0 && r == L.Settle(old(Tables()), c).1
    {
      if c.transfer !in processing || c.transfer !in transfers {
        return Err(CorruptData);
      }
      if processing[c.transfer].state != Pending {
        return Ok(RAlreadyProcessed);
      }
      if c.outcome.Hold? {
        Park(c, DHeld);
        return Ok(RHeld);
      }
      if c.outcome.ManualRequired? {
        Park(c, DManualRequired);
        return Ok(RManualRequired);
      }
      var start := Tables();
      r := Allocate(c);
      if r.Err? {
        Rollback(start);
        if r.error == TransitionRefused {
          Park(c, DManualRequired);
          r := Ok(RManualRequired);
        }
      }
    }

    method RecordUnresolved(t: Id)
      modifies this
      ensures Tables() == Unresolved(old(Tables()), t)
    {
      if t in processing && processing[t].state == Pending {
        processing := processing[t := processing[t].(state := L.Unmatched)];
      }
    }

    method HonorTransfer(h: HonorRequest) returns (r: Result<S.Outcome, OperationsError>)
      modifies this
      ensures Tables() == L.Honor(old(Tables()), h).0 && r == L.Honor(old(Tables()), h).1
    {
      var plan := PlanHonor(Tables(), h);
      if plan.Err? {
        return Err(plan.error);
      }
      var start := Tables();
      var record := Allocate(Command(h.transfer, h.attempt, h.intent, plan.value.merchant, plan.value.outcome));
      if record.Err? {
        Rollback(start);
        return Err(if record.error == TransitionRefused then Conflict else StorageFailed);
      }
      if record.value.RForeignClaim? || record.value.RAlreadyProcessed? {
        Rollback(start);
        return Err(Conflict);
      }
      return Ok(plan.value.outcome);
    }

    method RejectTransfer(t: Id) returns (r: Result<(), OperationsError>)
      modifies this
      ensures Tables() == L.Reject(old(Tables()), t).0 && r == L.Reject(old(Tables()), t).1
    {
      if t !in finality || t !in processing {
        return Err(NotFound);
      }
      if finality[t] != S.Finalized || !(processing[t].state.Held? || processing[t].state.Unmatched?) {
        return Err(Conflict);
      }
      if exists i :: 0 <= i < |allocations| && allocations[i].transfer == t {
        return Err(Conflict);
      }
      processing := processing[t := processing[t].(state := Resolved)];
      return Ok(());
    }

    /** Inserts the disposition first and rolls back when the transfer cannot be
        closed behind it. */
    method RecordDisposition(t: Id, intent: Id, remainder: nat) returns (r: Result<(), OperationsError>)
      modifies this
      ensures Tables() == L.Dispose(old(Tables()), t, intent, remainder).0 && r == L.Dispose(old(Tables()), t, intent, remainder).1
    {
      if (intent, t) !in decisions || !decisions[(intent, t)].kind.DOverpaid? {
        return Err(NotFound);
      }
      if decisions[(intent, t)].remainder != remainder || (intent, t) in dispositions {
        return Err(Conflict);
      }
      var start := Tables();
      dispositions := dispositions + {(intent, t)};
      if t !in processing || !processing[t].state.Matched? {
        Rollback(start);
        return Err(Conflict);
      }
      processing := processing[t := processing[t].(state := Resolved)];
      return Ok(());
    }

    /** `settle_pending`: the loop over a batch. The report's counters are a
        multiset of outcomes, one per examined transfer. */
    method SettlePending(batch: seq<Item>) returns (r: Result<multiset<Tally>, TxError>)
      modifies this
      ensures r.Ok? <==> Pass(old(Tables()), batch).Ok?
      ensures r.Ok? ==> Tables() == Pass(old(Tables()), batch).value.0
      ensures r.Ok? ==> r.value == multiset(Pass(old(Tables()), batch).value.1) && |r.value| == |batch|
    {
      var report := multiset{};
      ghost var start := Tables();
      for n := 0 to |batch|
        invariant Pass(start, batch[..n]).Ok? && Tables() == Pass(start, batch[..n]).value.0
        invariant report == multiset(Pass(start, batch[..n]).value.1)
      {
        var item := batch[n];
        assert batch[..n + 1][..n] == batch[..n] && batch[..n + 1][n] == item;
        var m := S.MatchTransfer(item.facts, item.candidates);
        if m.Ambiguous? || m.Unmatched? {
          RecordUnresolved(item.facts.transferId);
          report := report + multiset{if m.Ambiguous? then TAmbiguous else TUnmatched};
        } else {
          if m.attemptId !in attempts {
            PassStops(start, batch, n);
            return Err(CorruptData);
          }
          if item.tiers.None? {
            report := report + multiset{TMissingPolicy};
          } else {
            var decided := R.Decided(Tables(), item.facts.transferId, m.attemptId, FindingsOf(item, m.late));
            if decided.None? {
              PassStops(start, batch, n);
              return Err(CorruptData);
            }
            var record := Settle(decided.value.command);
            if record.Err? {
              PassStops(start, batch, n);
              return Err(record.error);
            }
            report := report + multiset{TallyOf(record.value)};
          }
        }
      }
      assert batch[..|batch|] == batch;
      return Ok(report);
    }
  }

  lemma {:induction false} PassStops(b: Books, batch: seq<Item>, n: nat)
    requires n < |batch| && Pass(b, batch[..n]).Ok? && SettleItem(Pass(b, batch[..n]).value.0, batch[n]).Err?
    ensures Pass(b, batch).Err?
    decreases |batch|
  {
    if n == |batch| - 1 {
      assert batch[..|batch| - 1] == batch[..n];
    } else {
      var front := batch[..|batch| - 1];
      assert front[..n] == batch[..n] && front[n] == batch[n];
      PassStops(b, front, n);
    }
  }
}
