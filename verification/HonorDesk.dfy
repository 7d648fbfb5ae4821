/** The approval desk over its tables: each method is one transaction that either
    commits or leaves every row as it was
    (crates/gateway-storage/src/honor_proposals.rs and operations.rs). */
module HonorDesk {
  import opened Clock
  import opened Common
  import L = Ledger
  import opened HonorApproval

  class Store {
    var books: L.Books
    var resolutions: map<RowKey, Resolution>
    var proposals: map<Id, Proposal>
    var proposedBy: map<RowKey, Id>

    ghost function State(): Desk
      reads this
    {
      Desk(books, resolutions, proposals, proposedBy)
    }

    method ResolveManual(op: Operator, key: string, m: Manual, hash: nat, threshold: nat) returns (r: Result<Outcome, DeskError>)
      modifies this
      ensures (State(), r) == Resolve(old(State()), op, key, m, hash, threshold)
    {
      if !op.admin {
        return Err(MissingScope);
      }
      if !ValidFields(m) {
        return Err(InvalidManualResolution);
      }
      if NeedsSecond(m, threshold) {
        return Err(DualControlRequired);
      }
      var id := (op.key, key);
      if id in resolutions {
        if resolutions[id].hash != hash {
          return Err(IdempotencyConflict);
        }
        return Ok(Outcome(id, resolutions[id], true));
      }
      var done := Carry(books, m, hash);
      if done.Err? {
        return Err(ManualRefused(done.error));
      }
      CarryPays(books, m, hash);
      books := done.value.0;
      resolutions := resolutions[id := done.value.1];
      return Ok(Outcome(id, done.value.1, false));
    }

    method ProposeHonor(op: Operator, key: string, h: L.HonorRequest, reason: string, hash: nat, threshold: nat, now: Instant, id: Id)
      returns (r: Result<(Id, bool), DeskError>)
      requires id !in proposals
      modifies this
      ensures (State(), r) == Propose(old(State()), op, key, h, reason, hash, threshold, now, id)
    {
      if !op.admin {
        return Err(MissingScope);
      }
      var expires := CheckedLater(now, HONOR_PROPOSAL_TTL);
      if h.allocate == 0 || expires.None? {
        return Err(InvalidManualResolution);
      }
      if (op.key, key) in proposedBy {
        var existing := proposedBy[(op.key, key)];
        if existing !in proposals || proposals[existing].hash != hash {
          return Err(IdempotencyConflict);
        }
        return Ok((existing, true));
      }
      var plan := L.PlanHonor(books, h);
      if plan.Err? {
        return Err(ManualRefused(plan.error));
      }
      var before := proposals;
      proposals := ExpireOverdue(proposals, h.transfer, now);
      if HasPending(proposals, h.transfer) {
        proposals := before;
        return Err(ManualRefused(L.Conflict));
      }
      proposals := proposals[id := Proposal(op.key, key, hash, h, reason, threshold, Pending, expires.value, None, None, None)];
      proposedBy := proposedBy[(op.key, key) := id];
      return Ok((id, false));
    }

    method ApproveHonor(op: Operator, pid: Id, key: string, reason: string, now: Instant) returns (r: Result<Outcome, DeskError>)
      modifies this
      ensures (State(), r) == Approve(old(State()), op, pid, key, reason, now)
    {
      if !op.admin {
        return Err(MissingScope);
      }
      if pid !in proposals {
        return Err(HonorProposalNotFound);
      }
      var p, id := proposals[pid], (op.key, key);
      if id in resolutions {
        if p.resolution != Some(id) || resolutions[id].hash != p.hash {
          return Err(IdempotencyConflict);
        }
        return Ok(Outcome(id, resolutions[id], true));
      }
      if op.key == p.proposer {
        return Err(SameOperator);
      }
      if p.status != Pending {
        return Err(HonorProposalNotPending);
      }
      if now >= p.expiresAt {
        return Err(HonorProposalExpired);
      }
      var done := Carry(books, HonorIt(p.request, p.reason), p.hash);
      if done.Err? {
        return Err(ManualRefused(done.error));
      }
      CarryPays(books, HonorIt(p.request, p.reason), p.hash);
      books := done.value.0;
      resolutions := resolutions[id := done.value.1];
      proposals := proposals[pid := p.(status := Approved, decision := Some(Decision(op.key, key, reason)),
                                       decidedAt := Some(now), resolution := Some(id))];
      return Ok(Outcome(id, done.value.1, false));
    }

    method RejectHonor(op: Operator, pid: Id, key: string, reason: string, now: Instant) returns (r: Result<bool, DeskError>)
      modifies this
      ensures (State(), r) == RejectProposal(old(State()), op, pid, key, reason, now)
    {
      if !op.admin {
        return Err(MissingScope);
      }
      if pid !in proposals {
        return Err(HonorProposalNotFound);
      }
      var p := proposals[pid];
      if p.status == Rejected && p.decision.Some? && p.decision.value.operator == op.key && p.decision.value.key == key {
        if p.decision.value.reason != reason {
          return Err(IdempotencyConflict);
        }
        return Ok(true);
      }
      if p.status != Pending {
        return Err(HonorProposalNotPending);
      }
      proposals := proposals[pid := p.(status := Rejected, decision := Some(Decision(op.key, key, reason)), decidedAt := Some(now))];
      return Ok(false);
    }
  }
}
