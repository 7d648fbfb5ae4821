/** Manual decisions and two-operator honors: idempotency, proposals and
    approvals over the money tables
    (crates/gateway-application/src/operations.rs,
    crates/gateway-storage/src/honor_proposals.rs and operations.rs). */
module HonorApproval {
  import opened Clock
  import opened Common
  import opened Money
  import S = Settlement
  import L = Ledger

  datatype Operator = Operator(key: Id, admin: bool)

  datatype Manual =
    | HonorIt(request: L.HonorRequest, reason: string)
    | RejectIt(transfer: Id, reason: string)
    | DisposeIt(transfer: Id, intent: Id, remainder: Amount, kind: Id, reference: string, reason: string)

  /** A resolution row's identity: the operator key and its idempotency key. */
  type RowKey = (Id, string)

  datatype Resolution = Resolution(command: Manual, hash: nat, merchant: Option<Id>, amount: Option<nat>, remainder: Option<nat>)

  datatype Status = Pending | Approved | Rejected | Expired

  datatype Decision = Decision(operator: Id, key: string, reason: string)

  datatype Proposal = Proposal(
    proposer: Id, key: string, hash: nat, request: L.HonorRequest, reason: string, threshold: nat,
    status: Status, expiresAt: Instant, decision: Option<Decision>, decidedAt: Option<Instant>, resolution: Option<RowKey>)

  /** The money tables, the resolution rows, the proposals and their unique index
      by proposer and idempotency key. */
  datatype Desk = Desk(books: L.Books, resolutions: map<RowKey, Resolution>, proposals: map<Id, Proposal>, proposedBy: map<RowKey, Id>)

  datatype DeskError =
    | MissingScope | InvalidManualResolution | DualControlRequired | IdempotencyConflict | ManualRefused(why: L.OperationsError)
    | HonorProposalNotFound | HonorProposalNotPending | HonorProposalExpired | SameOperator

  datatype Outcome = Outcome(id: RowKey, row: Resolution, replayed: bool)

  const HONOR_PROPOSAL_TTL: int := 24 * 60 * 60

  // ----- resolving directly -----

  /** What a command does to the money tables, and the row it leaves. */
  function Carry(b: L.Books, m: Manual, hash: nat): Result<(L.Books, Resolution), L.OperationsError> {
    match m
    case HonorIt(h, _) =>
      var done := L.Honor(b, h);
      if done.1.Err? then Err(done.1.error)
      else
        var remainder := S.RemainderOf(done.1.value);
        Ok((done.0, Resolution(m, hash, Some(L.PlanHonor(b, h).value.merchant), Some(h.allocate),
                               if remainder == 0 then None else Some(remainder))))
    case RejectIt(t, _) =>
      var done := L.Reject(b, t);
      if done.1.Err? then Err(done.1.error) else Ok((done.0, Resolution(m, hash, None, None, None)))
    case DisposeIt(t, i, remainder, _, _, _) =>
      var done := L.Dispose(b, t, i, remainder);
      if done.1.Err? then Err(done.1.error)
      else Ok((done.0, Resolution(m, hash, if i in b.intents then Some(b.intents[i].merchant) else None, None, Some(remainder))))
  }

  predicate NeedsSecond(m: Manual, threshold: nat) { m.HonorIt? && m.request.allocate >= threshold }

  predicate ValidFields(m: Manual) { m.HonorIt? ==> m.request.allocate != 0 }

  /** `load_resolution` of an existing row. */
  function Load(d: Desk, id: RowKey, hash: nat, replayed: bool): Result<Outcome, DeskError>
    requires id in d.resolutions
  {
    if d.resolutions[id].hash != hash then Err(IdempotencyConflict) else Ok(Outcome(id, d.resolutions[id], replayed))
  }

  /** `resolve_manual`, service and repository. */
  function Resolve(d: Desk, op: Operator, key: string, m: Manual, hash: nat, threshold: nat): (Desk, Result<Outcome, DeskError>) {
    if !op.admin then (d, Err(MissingScope))
    else if !ValidFields(m) then (d, Err(InvalidManualResolution))
    else if NeedsSecond(m, threshold) then (d, Err(DualControlRequired))
    else if (op.key, key) in d.resolutions then (d, Load(d, (op.key, key), hash, true))
    else
      var done := Carry(d.books, m, hash);
      if done.Err? then (d, Err(ManualRefused(done.error)))
      else
        var after := d.(books := done.value.0, resolutions := d.resolutions[(op.key, key) := done.value.1]);
        (after, Load(after, (op.key, key), hash, false))
  }

  // ----- proposals -----

  function ExpireOverdue(proposals: map<Id, Proposal>, transfer: Id, now: Instant): (r: map<Id, Proposal>)
    ensures r.Keys == proposals.Keys
  {
    map id | id in proposals ::
      if proposals[id].request.transfer == transfer && proposals[id].status == Pending && proposals[id].expiresAt <= now
      then proposals[id].(status := Expired, decidedAt := Some(now)) else proposals[id]
  }

  predicate HasPending(proposals: map<Id, Proposal>, transfer: Id) {
    exists id :: id in proposals && proposals[id].request.transfer == transfer && proposals[id].status == Pending
  }

  /** `propose_honor`; `id` is the new row's identifier. */
  function Propose(d: Desk, op: Operator, key: string, h: L.HonorRequest, reason: string, hash: nat, threshold: nat,
                   now: Instant, id: Id): (Desk, Result<(Id, bool), DeskError>)
    requires id !in d.proposals
  {
    var expires := CheckedLater(now, HONOR_PROPOSAL_TTL);
    if !op.admin then (d, Err(MissingScope))
    else if h.allocate == 0 || expires.None? then (d, Err(InvalidManualResolution))
    else if (op.key, key) in d.proposedBy then
      var existing := d.proposedBy[(op.key, key)];
      if existing !in d.proposals || d.proposals[existing].hash != hash then (d, Err(IdempotencyConflict))
      else (d, Ok((existing, true)))
    else
      var plan := L.PlanHonor(d.books, h);
      if plan.Err? then (d, Err(ManualRefused(plan.error)))
      else
        var swept := ExpireOverdue(d.proposals, h.transfer, now);
        if HasPending(swept, h.transfer) then (d, Err(ManualRefused(L.Conflict)))
        else
          var row := Proposal(op.key, key, hash, h, reason, threshold, Pending, expires.value, None, None, None);
          (d.(proposals := swept[id := row], proposedBy := d.proposedBy[(op.key, key) := id]), Ok((id, false)))
  }

  /** `approve_honor`: replay, then every check, then the honor and the closing of
      the proposal in one transaction. */
  function Approve(d: Desk, op: Operator, pid: Id, key: string, reason: string, now: Instant): (Desk, Result<Outcome, DeskError>) {
    if !op.admin then (d, Err(MissingScope))
    else if pid !in d.proposals then (d, Err(HonorProposalNotFound))
    else
      var p, id := d.proposals[pid], (op.key, key);
      if id in d.resolutions then
        if p.resolution != Some(id) then (d, Err(IdempotencyConflict)) else (d, Load(d, id, p.hash, true))
      else if op.key == p.proposer then (d, Err(SameOperator))
      else if p.status != Pending then (d, Err(HonorProposalNotPending))
      else if now >= p.expiresAt then (d, Err(HonorProposalExpired))
      else
        var done := Carry(d.books, HonorIt(p.request, p.reason), p.hash);
        if done.Err? then (d, Err(ManualRefused(done.error)))
        else
          var closed := p.(status := Approved, decision := Some(Decision(op.key, key, reason)),
                           decidedAt := Some(now), resolution := Some(id));
          var after := Desk(done.value.0, d.resolutions[id := done.value.1], d.proposals[pid := closed], d.proposedBy);
          (after, Load(after, id, p.hash, false))
  }

  /** `reject_honor`. */
  function RejectProposal(d: Desk, op: Operator, pid: Id, key: string, reason: string, now: Instant): (Desk, Result<bool, DeskError>) {
    if !op.admin then (d, Err(MissingScope))
    else if pid !in d.proposals then (d, Err(HonorProposalNotFound))
    else
      var p := d.proposals[pid];
      if p.status == Rejected && p.decision.Some? && p.decision.value.operator == op.key && p.decision.value.key == key then
        if p.decision.value.reason != reason then (d, Err(IdempotencyConflict)) else (d, Ok(true))
      else if p.status != Pending then (d, Err(HonorProposalNotPending))
      else
        var closed := p.(status := Rejected, decision := Some(Decision(op.key, key, reason)), decidedAt := Some(now));
        (d.(proposals := d.proposals[pid := closed]), Ok(false))
  }

  // ----- runs -----

  /** One service call, or anything another component does to the money tables. */
  datatype Step =
    | ResolveStep(op: Operator, key: string, command: Manual, hash: nat)
    | ProposeStep(op: Operator, key: string, request: L.HonorRequest, reason: string, hash: nat, now: Instant, id: Id)
    | ApproveStep(op: Operator, pid: Id, key: string, reason: string, now: Instant)
    | RejectStep(op: Operator, pid: Id, key: string, reason: string, now: Instant)
    | Elsewhere(books: L.Books)

  function Apply(d: Desk, step: Step, threshold: nat): Desk {
    match step
    case ResolveStep(op, key, m, hash) => Resolve(d, op, key, m, hash, threshold).0
    case ProposeStep(op, key, h, reason, hash, now, id) =>
      if id in d.proposals then d else Propose(d, op, key, h, reason, hash, threshold, now, id).0
    case ApproveStep(op, pid, key, reason, now) => Approve(d, op, pid, key, reason, now).0
    case RejectStep(op, pid, key, reason, now) => RejectProposal(d, op, pid, key, reason, now).0
    case Elsewhere(books) => d.(books := books)
  }

  function Run(d: Desk, run: seq<Step>, threshold: nat): Desk
    decreases |run|
  {
    if run == [] then d else Run(Apply(d, run[0], threshold), run[1..], threshold)
  }

  // ----- what every run keeps -----

  /** The proposal behind a resolution row: approved, for this very request, and
      proposed under another key than the one that executed it. */
  predicate Backs(d: Desk, pid: Id, id: RowKey) {
    && pid in d.proposals && id in d.resolutions
    && d.proposals[pid].status == Approved && d.proposals[pid].resolution == Some(id)
    && d.resolutions[id].command == HonorIt(d.proposals[pid].request, d.proposals[pid].reason)
    && d.proposals[pid].proposer != id.0
  }

  predicate Linked(d: Desk, pid: Id)
    requires pid in d.proposals
  {
    if d.proposals[pid].status == Approved then d.proposals[pid].resolution.Some? && Backs(d, pid, d.proposals[pid].resolution.value)
    else d.proposals[pid].resolution.None?
  }

  /** Every honor at or above the threshold rests on an approved proposal by
      someone else; approved proposals and only they name a row, each its own. */
  ghost predicate Inv(d: Desk, threshold: nat) {
    && (forall id :: id in d.resolutions && NeedsSecond(d.resolutions[id].command, threshold) ==> exists pid :: Backs(d, pid, id))
    && (forall pid :: pid in d.proposals ==> Linked(d, pid))
    && (forall p, q, id :: Backs(d, p, id) && Backs(d, q, id) ==> p == q)
  }

  // ----- rows never change once written -----

  /** Resolution rows are only added, and a proposal that left pending stays as it
      is: approved, rejected or expired, once. */
  ghost predicate Extends(d: Desk, e: Desk) {
    && (forall id :: id in d.resolutions ==> id in e.resolutions && e.resolutions[id] == d.resolutions[id])
    && (forall pid :: pid in d.proposals ==> pid in e.proposals && SameRequest(d.proposals[pid], e.proposals[pid]))
    && (forall pid :: pid in d.proposals && d.proposals[pid].status != Pending ==> e.proposals[pid] == d.proposals[pid])
  }

  predicate SameRequest(p: Proposal, q: Proposal) {
    p.proposer == q.proposer && p.request == q.request && p.hash == q.hash && p.reason == q.reason && p.threshold == q.threshold
  }

  lemma ResolveExtends(d: Desk, op: Operator, key: string, m: Manual, hash: nat, threshold: nat)
    ensures Extends(d, Resolve(d, op, key, m, hash, threshold).0)
  {}

  lemma ProposeExtends(d: Desk, op: Operator, key: string, h: L.HonorRequest, reason: string, hash: nat,
                       threshold: nat, now: Instant, id: Id)
    requires id !in d.proposals
    ensures Extends(d, Propose(d, op, key, h, reason, hash, threshold, now, id).0)
  {}

  lemma ApproveExtends(d: Desk, op: Operator, pid: Id, key: string, reason: string, now: Instant)
    ensures Extends(d, Approve(d, op, pid, key, reason, now).0)
  {
    var e := Approve(d, op, pid, key, reason, now).0;
    if e != d { ClosingExtends(d, e, pid, (op.key, key)); }
  }

  /** Adding a row and closing a pending proposal changes nothing already there. */
  lemma ClosingExtends(d: Desk, e: Desk, pid: Id, id: RowKey)
    requires pid in d.proposals && d.proposals[pid].status == Pending && id !in d.resolutions
    requires id in e.resolutions && e.resolutions == d.resolutions[id := e.resolutions[id]]
    requires pid in e.proposals && e.proposals == d.proposals[pid := e.proposals[pid]] && SameRequest(d.proposals[pid], e.proposals[pid])
    ensures Extends(d, e)
  {}

  lemma StepExtends(d: Desk, step: Step, threshold: nat)
    ensures Extends(d, Apply(d, step, threshold))
  {
    match step
    case ResolveStep(op, key, m, hash) => ResolveExtends(d, op, key, m, hash, threshold);
    case ProposeStep(op, key, h, reason, hash, now, id) =>
      if id !in d.proposals { ProposeExtends(d, op, key, h, reason, hash, threshold, now, id); }
    case ApproveStep(op, pid, key, reason, now) => ApproveExtends(d, op, pid, key, reason, now);
    case RejectStep(_, _, _, _, _) =>
    case Elsewhere(_) =>
  }

  lemma ExtendsTransitive(a: Desk, b: Desk, c: Desk)
    requires Extends(a, b) && Extends(b, c)
    ensures Extends(a, c)
  {}

  lemma {:induction false} RunExtends(d: Desk, run: seq<Step>, threshold: nat)
    ensures Extends(d, Run(d, run, threshold))
    decreases |run|
  {
    if run != [] {
      var next := Apply(d, run[0], threshold);
      StepExtends(d, run[0], threshold);
      RunExtends(next, run[1..], threshold);
      ExtendsTransitive(d, next, Run(d, run, threshold));
    }
  }

  // ----- the invariant -----

  lemma BacksStays(d: Desk, e: Desk, pid: Id, id: RowKey)
    requires Extends(d, e) && Backs(d, pid, id)
    ensures Backs(e, pid, id)
  {}

  lemma LargeHonorsStayBacked(d: Desk, e: Desk, threshold: nat)
    requires Inv(d, threshold) && Extends(d, e)
    requires forall id :: id in e.resolutions && id !in d.resolutions && NeedsSecond(e.resolutions[id].command, threshold) ==>
               exists pid :: Backs(e, pid, id)
    ensures forall id :: id in e.resolutions && NeedsSecond(e.resolutions[id].command, threshold) ==> exists pid :: Backs(e, pid, id)
  {
    forall id | id in e.resolutions && NeedsSecond(e.resolutions[id].command, threshold) ensures exists pid :: Backs(e, pid, id) {
      if id in d.resolutions {
        var pid :| Backs(d, pid, id);
        BacksStays(d, e, pid, id);
      }
    }
  }

  /** A step that adds no approval: nothing new to back, nothing new backing. */
  lemma QuietStep(d: Desk, e: Desk, threshold: nat)
    requires Inv(d, threshold) && Extends(d, e)
    requires forall id :: id in e.resolutions && id !in d.resolutions ==> !NeedsSecond(e.resolutions[id].command, threshold)
    requires forall pid :: pid in e.proposals && e.proposals[pid].status == Approved ==>
               pid in d.proposals && d.proposals[pid] == e.proposals[pid]
    requires forall pid :: pid in e.proposals && e.proposals[pid].status != Approved ==> e.proposals[pid].resolution.None?
    ensures Inv(e, threshold)
  {
    LargeHonorsStayBacked(d, e, threshold);
    forall pid | pid in e.proposals ensures Linked(e, pid) {
      if e.proposals[pid].status == Approved {
        assert Linked(d, pid);
        BacksStays(d, e, pid, d.proposals[pid].resolution.value);
      }
    }
    forall p, q, id | Backs(e, p, id) && Backs(e, q, id) ensures p == q {
      assert Linked(d, p) && Linked(d, q);
      assert Backs(d, p, id) && Backs(d, q, id);
    }
  }

  lemma ApproveKeepsInv(d: Desk, op: Operator, pid: Id, key: string, reason: string, now: Instant, threshold: nat)
    requires Inv(d, threshold)
    ensures Inv(Approve(d, op, pid, key, reason, now).0, threshold)
  {
    var e, id := Approve(d, op, pid, key, reason, now).0, (op.key, key);
    if e != d {
      StepExtends(d, ApproveStep(op, pid, key, reason, now), threshold);
      assert Backs(e, pid, id);
      LargeHonorsStayBacked(d, e, threshold);
      forall q | q in e.proposals ensures Linked(e, q) {
        if q != pid { assert Linked(d, q); }
      }
      forall p, q, i | Backs(e, p, i) && Backs(e, q, i) ensures p == q {
        ApprovedOnce(d, e, pid, id, p, i, threshold);
        ApprovedOnce(d, e, pid, id, q, i, threshold);
      }
    }
  }

  /** Whatever backs a row after an approval either is that approval or did so
      before. */
  lemma ApprovedOnce(d: Desk, e: Desk, pid: Id, id: RowKey, p: Id, i: RowKey, threshold: nat)
    requires Inv(d, threshold) && Extends(d, e) && id !in d.resolutions && Backs(e, p, i)
    requires e.proposals.Keys == d.proposals.Keys && (forall q :: q in d.proposals && q != pid ==> e.proposals[q] == d.proposals[q])
    requires pid in d.proposals && e.proposals[pid].resolution == Some(id)
    ensures if p == pid then i == id else i != id && Backs(d, p, i)
  {
    if p != pid {
      assert Linked(d, p);
    }
  }

  lemma ResolveKeepsInv(d: Desk, op: Operator, key: string, m: Manual, hash: nat, threshold: nat)
    requires Inv(d, threshold)
    ensures Inv(Resolve(d, op, key, m, hash, threshold).0, threshold)
  {
    var e := Resolve(d, op, key, m, hash, threshold).0;
    StepExtends(d, ResolveStep(op, key, m, hash), threshold);
    if e != d {
      CarryPays(d.books, m, hash);
      NothingApproved(d, threshold);
      QuietStep(d, e, threshold);
    }
  }

  lemma NothingApproved(d: Desk, threshold: nat)
    requires Inv(d, threshold)
    ensures forall pid :: pid in d.proposals && d.proposals[pid].status != Approved ==> d.proposals[pid].resolution.None?
  {
    forall pid | pid in d.proposals && d.proposals[pid].status != Approved ensures d.proposals[pid].resolution.None? {
      assert Linked(d, pid);
    }
  }

  /** New and expired rows back nothing. */
  lemma NewProposalKeepsInv(d: Desk, e: Desk, transfer: Id, now: Instant, id: Id, row: Proposal, threshold: nat)
    requires Inv(d, threshold) && id !in d.proposals && row.status == Pending && row.resolution.None?
    requires e.resolutions == d.resolutions && e.proposals == ExpireOverdue(d.proposals, transfer, now)[id := row]
    ensures Inv(e, threshold)
  {
    NothingApproved(d, threshold);
    QuietStep(d, e, threshold);
  }

  lemma ProposeKeepsInv(d: Desk, op: Operator, key: string, h: L.HonorRequest, reason: string, hash: nat,
                        threshold: nat, now: Instant, id: Id)
    requires Inv(d, threshold) && id !in d.proposals
    ensures Inv(Propose(d, op, key, h, reason, hash, threshold, now, id).0, threshold)
  {
    var e := Propose(d, op, key, h, reason, hash, threshold, now, id).0;
    if e != d {
      NewProposalKeepsInv(d, e, h.transfer, now, id, e.proposals[id], threshold);
    }
  }

  lemma ClosedProposalKeepsInv(d: Desk, e: Desk, pid: Id, row: Proposal, threshold: nat)
    requires Inv(d, threshold) && pid in d.proposals && d.proposals[pid].status == Pending && SameRequest(d.proposals[pid], row)
    requires row.status == Rejected && row.resolution == d.proposals[pid].resolution
    requires e.resolutions == d.resolutions && e.proposals == d.proposals[pid := row]
    ensures Inv(e, threshold)
  {
    NothingApproved(d, threshold);
    QuietStep(d, e, threshold);
  }

  lemma RejectKeepsInv(d: Desk, op: Operator, pid: Id, key: string, reason: string, now: Instant, threshold: nat)
    requires Inv(d, threshold)
    ensures Inv(RejectProposal(d, op, pid, key, reason, now).0, threshold)
  {
    var e := RejectProposal(d, op, pid, key, reason, now).0;
    if e != d {
      ClosedProposalKeepsInv(d, e, pid, e.proposals[pid], threshold);
    }
  }

  lemma StepKeepsInv(d: Desk, step: Step, threshold: nat)
    requires Inv(d, threshold)
    ensures Inv(Apply(d, step, threshold), threshold)
  {
    match step
    case ResolveStep(op, key, m, hash) => ResolveKeepsInv(d, op, key, m, hash, threshold);
    case ApproveStep(op, pid, key, reason, now) => ApproveKeepsInv(d, op, pid, key, reason, now, threshold);
    case Elsewhere(books) => ElsewhereKeepsInv(d, books, threshold);
    case ProposeStep(op, key, h, reason, hash, now, id) =>
      if id !in d.proposals { ProposeKeepsInv(d, op, key, h, reason, hash, threshold, now, id); }
    case RejectStep(op, pid, key, reason, now) => RejectKeepsInv(d, op, pid, key, reason, now, threshold);
  }

  lemma ElsewhereKeepsInv(d: Desk, books: L.Books, threshold: nat)
    requires Inv(d, threshold)
    ensures Inv(d.(books := books), threshold)
  {
    StepExtends(d, Elsewhere(books), threshold);
    NothingApproved(d, threshold);
    QuietStep(d, d.(books := books), threshold);
  }

  /** In every run under a fixed threshold, each honor at or above it rests on one
      approved proposal whose proposer is not the key that executed it. */
  lemma {:induction false} DualControlHolds(d: Desk, run: seq<Step>, threshold: nat)
    requires Inv(d, threshold)
    ensures Inv(Run(d, run, threshold), threshold)
    decreases |run|
  {
    if run != [] {
      StepKeepsInv(d, run[0], threshold);
      DualControlHolds(Apply(d, run[0], threshold), run[1..], threshold);
    }
  }

  /** At most one proposal per transfer is waiting. */
  ghost predicate OnePending(d: Desk) {
    forall p, q :: (p in d.proposals && q in d.proposals && d.proposals[p].status == Pending && d.proposals[q].status == Pending
                    && d.proposals[p].request.transfer == d.proposals[q].request.transfer) ==> p == q
  }

  lemma ProposeKeepsOnePending(d: Desk, op: Operator, key: string, h: L.HonorRequest, reason: string, hash: nat,
                               threshold: nat, now: Instant, id: Id)
    requires OnePending(d) && id !in d.proposals
    ensures OnePending(Propose(d, op, key, h, reason, hash, threshold, now, id).0)
  {}

  /** In every run, whatever else happens. */
  lemma {:induction false} OnePendingPerTransfer(d: Desk, run: seq<Step>, threshold: nat)
    requires OnePending(d)
    ensures OnePending(Run(d, run, threshold))
    decreases |run|
  {
    if run != [] {
      var step := run[0];
      if step.ProposeStep? && step.id !in d.proposals {
        ProposeKeepsOnePending(d, step.op, step.key, step.request, step.reason, step.hash, threshold, step.now, step.id);
      }
      assert OnePending(Apply(d, step, threshold));
      OnePendingPerTransfer(Apply(d, step, threshold), run[1..], threshold);
    }
  }

  // ----- replays -----

  /** However much happens in between, repeating an approval answers with the first
      result and changes nothing. */
  lemma ApprovalReplays(d: Desk, op: Operator, pid: Id, key: string, reason: string, now: Instant,
                        run: seq<Step>, threshold: nat, again: string, later: Instant)
    requires Approve(d, op, pid, key, reason, now).1.Ok? && !Approve(d, op, pid, key, reason, now).1.value.replayed
    ensures var first := Approve(d, op, pid, key, reason, now);
            var after := Run(first.0, run, threshold);
            Approve(after, op, pid, key, again, later) == (after, Ok(first.1.value.(replayed := true)))
  {
    var first := Approve(d, op, pid, key, reason, now);
    RunExtends(first.0, run, threshold);
  }

  /** And so does repeating a direct decision under the same command. */
  lemma ResolutionReplays(d: Desk, op: Operator, key: string, m: Manual, hash: nat, threshold: nat, run: seq<Step>)
    requires Resolve(d, op, key, m, hash, threshold).1.Ok?
    ensures var first := Resolve(d, op, key, m, hash, threshold);
            var after := Run(first.0, run, threshold);
            Resolve(after, op, key, m, hash, threshold) == (after, Ok(first.1.value.(replayed := true)))
  {
    var first := Resolve(d, op, key, m, hash, threshold);
    RunExtends(first.0, run, threshold);
  }

  // ----- one payment per honor row -----

  lemma HonorAllocates(b: L.Books, h: L.HonorRequest)
    requires L.Honor(b, h).1.Ok?
    ensures L.Honor(b, h).0.allocations == b.allocations + [L.Allocation(h.attempt, h.transfer, h.allocate)]
  {}

  /** What a command pays. */
  function Payment(m: Manual): seq<L.Allocation> {
    if m.HonorIt? then [L.Allocation(m.request.attempt, m.request.transfer, m.request.allocate)] else []
  }

  lemma CarryPays(b: L.Books, m: Manual, hash: nat)
    requires Carry(b, m, hash).Ok?
    ensures Carry(b, m, hash).value.0.allocations == b.allocations + Payment(m)
    ensures Carry(b, m, hash).value.1.command == m && Carry(b, m, hash).value.1.hash == hash
  {
    if m.HonorIt? { HonorAllocates(b, m.request); }
  }

  /** A service call either pays nothing and leaves the resolution rows alone, or
      adds exactly one row and pays exactly what that row says. */
  lemma OneRowOnePayment(d: Desk, step: Step, threshold: nat)
    requires !step.Elsewhere?
    ensures var e := Apply(d, step, threshold);
            || (e.resolutions == d.resolutions && e.books == d.books)
            || (exists id :: id !in d.resolutions && id in e.resolutions && e.resolutions == d.resolutions[id := e.resolutions[id]]
                             && e.books.allocations == d.books.allocations + Payment(e.resolutions[id].command))
  {
    var e := Apply(d, step, threshold);
    match step
    case ResolveStep(op, key, m, hash) =>
      if e != d { CarryPays(d.books, m, hash); assert (op.key, key) !in d.resolutions; }
    case ApproveStep(op, pid, key, _, _) =>
      if e != d {
        CarryPays(d.books, HonorIt(d.proposals[pid].request, d.proposals[pid].reason), d.proposals[pid].hash);
        assert (op.key, key) !in d.resolutions;
      }
    case _ =>
  }
}
