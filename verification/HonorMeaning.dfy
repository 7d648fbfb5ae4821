/** Exactly when each call at the desk goes through, with which answer otherwise,
    and what it leaves behind (crates/gateway-application/src/operations.rs,
    crates/gateway-storage/src/honor_proposals.rs and operations.rs). */
module HonorMeaning {
  import opened Clock
  import opened Common
  import L = Ledger
  import opened HonorApproval

  // ----- what is carried out -----

  /** The row of an honor that went through. */
  predicate HonorRowSays(b: L.Books, h: L.HonorRequest, reason: string, hash: nat, row: Resolution)
    requires h.transfer in b.transfers && h.intent in b.intents
  {
    && row.command == HonorIt(h, reason) && row.hash == hash
    && row.merchant == Some(b.intents[h.intent].merchant) && row.amount == Some(h.allocate)
    && (h.transfer in b.processing && b.processing[h.transfer].spent == 0 && h.allocate <= b.transfers[h.transfer].amount ==>
          row.remainder == if h.allocate < b.transfers[h.transfer].amount
                           then Some(b.transfers[h.transfer].amount - h.allocate) else None)
  }

  lemma CarriedHonor(b: L.Books, h: L.HonorRequest, reason: string, hash: nat)
    ensures var done := Carry(b, HonorIt(h, reason), hash);
            && (done.Ok? <==> L.Honor(b, h).1.Ok?) && (done.Err? ==> L.Honor(b, h).1 == Err(done.error))
            && (done.Ok? ==> && done.value.0 == L.Honor(b, h).0
                             && h.transfer in b.transfers && h.intent in b.intents && HonorRowSays(b, h, reason, hash, done.value.1))
  {}

  lemma CarriedRest(b: L.Books, m: Manual, hash: nat)
    ensures m.RejectIt? ==> var done := Carry(b, m, hash); var r := L.Reject(b, m.transfer);
              && (done.Ok? <==> r.1.Ok?) && (done.Err? ==> r.1 == Err(done.error))
              && (done.Ok? ==> done.value == (r.0, Resolution(m, hash, None, None, None)))
    ensures m.DisposeIt? ==> var done := Carry(b, m, hash); var r := L.Dispose(b, m.transfer, m.intent, m.remainder);
              && (done.Ok? <==> r.1.Ok?) && (done.Err? ==> r.1 == Err(done.error))
              && (done.Ok? ==> && done.value.0 == r.0 && done.value.1.command == m && done.value.1.hash == hash
                               && done.value.1.amount.None? && done.value.1.remainder == Some(m.remainder)
                               && (m.intent in b.intents ==> done.value.1.merchant == Some(b.intents[m.intent].merchant)))
  {}

  // ----- direct decisions -----

  /** Large enough to need two people. */
  predicate Large(m: Manual, threshold: nat) { m.HonorIt? && threshold <= m.request.allocate }

  /** A direct decision by an administrator on a valid, small command: a key seen
      before answers with its row under the same hash and a conflict under
      another, and a new key carries the command out once. */
  lemma ResolveSays(d: Desk, op: Operator, key: string, m: Manual, hash: nat, threshold: nat)
    ensures var (e, r) := Resolve(d, op, key, m, hash, threshold);
            var id, empty := (op.key, key), m.HonorIt? && m.request.allocate == 0;
            && (r == Err(MissingScope) <==> !op.admin)
            && (r == Err(InvalidManualResolution) <==> op.admin && empty)
            && (r == Err(DualControlRequired) <==> op.admin && !empty && Large(m, threshold))
            && (op.admin && !empty && !Large(m, threshold) ==>
                  if id in d.resolutions then
                    && e == d
                    && r == if d.resolutions[id].hash == hash then Ok(Outcome(id, d.resolutions[id], true)) else Err(IdempotencyConflict)
                  else
                    var done := Carry(d.books, m, hash);
                    if done.Err? then e == d && r == Err(ManualRefused(done.error))
                    else && e == d.(books := done.value.0, resolutions := d.resolutions[id := done.value.1])
                         && (done.value.1.hash == hash ==> r == Ok(Outcome(id, done.value.1, false))))
            && (r.Err? && !r.error.ManualRefused? && !r.error.IdempotencyConflict? ==> e == d)
  {
    if m.HonorIt? { CarriedHonor(d.books, m.request, m.reason, hash); } else { CarriedRest(d.books, m, hash); }
  }

  // ----- proposals -----

  /** A pending proposal on the transfer that has not run out. */
  predicate Waiting(d: Desk, transfer: Id, now: Instant) {
    exists id :: && id in d.proposals && d.proposals[id].request.transfer == transfer
                 && d.proposals[id].status.Pending? && now < d.proposals[id].expiresAt
  }

  predicate Expirable(p: Proposal, transfer: Id, now: Instant) {
    p.request.transfer == transfer && p.status.Pending? && p.expiresAt <= now
  }

  lemma WaitingSays(d: Desk, transfer: Id, now: Instant)
    ensures HasPending(ExpireOverdue(d.proposals, transfer, now), transfer) <==> Waiting(d, transfer, now)
  {
    var swept := ExpireOverdue(d.proposals, transfer, now);
    if HasPending(swept, transfer) {
      var id :| id in swept && swept[id].request.transfer == transfer && swept[id].status == Pending;
      assert d.proposals[id].status.Pending? && now < d.proposals[id].expiresAt;
    }
    if Waiting(d, transfer, now) {
      var id :| id in d.proposals && d.proposals[id].request.transfer == transfer
                && d.proposals[id].status.Pending? && now < d.proposals[id].expiresAt;
      assert swept[id] == d.proposals[id];
    }
  }

  /** The new row waits for a day; overdue ones on the same transfer are closed. */
  predicate Proposed(d: Desk, e: Desk, op: Operator, key: string, h: L.HonorRequest, reason: string, hash: nat, threshold: nat,
                     now: Instant, id: Id)
  {
    && e == d.(proposals := e.proposals, proposedBy := d.proposedBy[(op.key, key) := id])
    && e.proposals.Keys == d.proposals.Keys + {id}
    && e.proposals[id] == Proposal(op.key, key, hash, h, reason, threshold, Pending, now + Nanos(86_400), None, None, None)
    && (forall p :: p in d.proposals ==>
          e.proposals[p] == if Expirable(d.proposals[p], h.transfer, now)
                            then d.proposals[p].(status := Expired, decidedAt := Some(now)) else d.proposals[p])
  }

  /** A proposal by an administrator for an amount: a key seen before answers with
      its proposal under the same hash; a new one is recorded exactly when the
      honor could be planned now and nothing is waiting on the transfer. */
  lemma ProposeSays(d: Desk, op: Operator, key: string, h: L.HonorRequest, reason: string, hash: nat, threshold: nat,
                    now: Instant, id: Id)
    requires id !in d.proposals
    ensures var (e, r) := Propose(d, op, key, h, reason, hash, threshold, now, id);
            var valid := h.allocate > 0 && OnCalendar(now + Nanos(86_400));
            && (r == Err(MissingScope) <==> !op.admin)
            && (r == Err(InvalidManualResolution) <==> op.admin && !valid)
            && (op.admin && valid && (op.key, key) in d.proposedBy ==>
                  var known := d.proposedBy[(op.key, key)];
                  && e == d
                  && r == if known in d.proposals && d.proposals[known].hash == hash then Ok((known, true)) else Err(IdempotencyConflict))
            && (op.admin && valid && (op.key, key) !in d.proposedBy ==>
                  && (r.Ok? <==> L.PlanHonor(d.books, h).Ok? && !Waiting(d, h.transfer, now))
                  && (r.Ok? ==> r.value == (id, false) && Proposed(d, e, op, key, h, reason, hash, threshold, now, id))
                  && (r.Err? ==> r.error == ManualRefused(if L.PlanHonor(d.books, h).Err? then L.PlanHonor(d.books, h).error
                                                          else L.Conflict)))
            && (r.Err? ==> e == d)
  {
    WaitingSays(d, h.transfer, now);
  }

  /** An approval that is not a replay goes through exactly when it comes from
      another key, on a pending proposal, before it runs out, and the honor itself
      goes through; the refusals are tried in that order. */
  lemma ApproveSays(d: Desk, op: Operator, pid: Id, key: string, reason: string, now: Instant)
    ensures var (e, r) := Approve(d, op, pid, key, reason, now);
            var id := (op.key, key);
            && (r == Err(MissingScope) <==> !op.admin)
            && (r == Err(HonorProposalNotFound) <==> op.admin && pid !in d.proposals)
            && (op.admin && pid in d.proposals && id in d.resolutions ==>
                  var p := d.proposals[pid];
                  e == d && r == if p.resolution == Some(id) && d.resolutions[id].hash == p.hash
                                 then Ok(Outcome(id, d.resolutions[id], true)) else Err(IdempotencyConflict))
            && (op.admin && pid in d.proposals && id !in d.resolutions ==>
                  var p := d.proposals[pid];
                  var paid := L.Honor(d.books, p.request);
                  && (r == Err(SameOperator) <==> op.key == p.proposer)
                  && (r == Err(HonorProposalNotPending) <==> op.key != p.proposer && !p.status.Pending?)
                  && (r == Err(HonorProposalExpired) <==> op.key != p.proposer && p.status.Pending? && p.expiresAt <= now)
                  && (r.Ok? <==> op.key != p.proposer && p.status.Pending? && now < p.expiresAt && paid.1.Ok?)
                  && (r.Ok? ==> PaidAndClosed(d, e, pid, op, key, reason, now) && r.value == Outcome(id, e.resolutions[id], false)))
            && (r.Err? ==> e == d)
  {
    if pid in d.proposals { CarriedHonor(d.books, d.proposals[pid].request, d.proposals[pid].reason, d.proposals[pid].hash); }
  }

  /** The honor is paid, its row written, and the proposal closed with who approved
      it and when. */
  predicate PaidAndClosed(d: Desk, e: Desk, pid: Id, op: Operator, key: string, reason: string, now: Instant)
    requires pid in d.proposals
  {
    var p, id := d.proposals[pid], (op.key, key);
    && e.books == L.Honor(d.books, p.request).0 && e.proposedBy == d.proposedBy
    && id in e.resolutions && e.resolutions == d.resolutions[id := e.resolutions[id]]
    && p.request.transfer in d.books.transfers && p.request.intent in d.books.intents
    && HonorRowSays(d.books, p.request, p.reason, p.hash, e.resolutions[id])
    && e.proposals == d.proposals[pid := p.(status := Status.Approved, decision := Some(Decision(op.key, key, reason)),
                                            decidedAt := Some(now), resolution := Some(id))]
  }

  /** A rejection closes a pending proposal; repeating it changes nothing. */
  lemma RejectSays(d: Desk, op: Operator, pid: Id, key: string, reason: string, now: Instant)
    ensures var (e, r) := RejectProposal(d, op, pid, key, reason, now);
            && (r == Err(MissingScope) <==> !op.admin)
            && (r == Err(HonorProposalNotFound) <==> op.admin && pid !in d.proposals)
            && (op.admin && pid in d.proposals ==>
                  var p, mine := d.proposals[pid], Some(Decision(op.key, key, reason));
                  var repeated := && p.status.Rejected? && p.decision.Some?
                                  && p.decision.value.operator == op.key && p.decision.value.key == key;
                  && (r == Ok(true) <==> repeated && p.decision.value.reason == reason)
                  && (r == Err(IdempotencyConflict) <==> repeated && p.decision.value.reason != reason)
                  && (r == Ok(false) <==> p.status.Pending?)
                  && (r == Err(HonorProposalNotPending) <==> !repeated && !p.status.Pending?)
                  && (r == Ok(false) ==>
                        e == d.(proposals := d.proposals[pid := p.(status := Rejected, decision := mine, decidedAt := Some(now))])))
            && (r != Ok(false) ==> e == d)
  {}

  // ----- in time, over every run -----

  /** Approved before it ran out, expired only afterwards, decided only when closed. */
  predicate InTime(p: Proposal) {
    && (p.status.Pending? <==> p.decidedAt.None?)
    && (p.status.Approved? ==> p.decidedAt.Some? && p.decidedAt.value < p.expiresAt)
    && (p.status.Expired? ==> p.decidedAt.Some? && p.expiresAt <= p.decidedAt.value)
    && (p.status.Pending? || p.status.Expired? ==> p.decision.None?)
  }

  ghost predicate AllInTime(d: Desk) {
    forall pid :: pid in d.proposals ==> InTime(d.proposals[pid])
  }

  lemma StepKeepsTime(d: Desk, step: Step, threshold: nat)
    requires AllInTime(d)
    ensures AllInTime(Apply(d, step, threshold))
  {
    match step
    case ProposeStep(op, key, h, reason, hash, now, id) =>
      if id !in d.proposals { ProposeSays(d, op, key, h, reason, hash, threshold, now, id); }
    case ApproveStep(op, pid, key, reason, now) => ApproveSays(d, op, pid, key, reason, now);
    case RejectStep(op, pid, key, reason, now) => RejectSays(d, op, pid, key, reason, now);
    case ResolveStep(_, _, _, _) =>
    case Elsewhere(_) =>
  }

  /** Over every run: no proposal is approved once it ran out, none expires before,
      and each is decided once. */
  lemma {:induction false} DecidedInTime(d: Desk, run: seq<Step>, threshold: nat)
    requires AllInTime(d)
    ensures AllInTime(Run(d, run, threshold))
    decreases |run|
  {
    if run != [] {
      StepKeepsTime(d, run[0], threshold);
      DecidedInTime(Apply(d, run[0], threshold), run[1..], threshold);
    }
  }
}
