/** What each answer of `verify` says about the readings themselves, field by
    field (crates/gateway-domain/src/verification.rs). */
module VerdictMeaning {
  import opened Clock
  import opened Common
  import opened Money
  import opened Evidence
  import opened Verification

  // ----- the state of a verified fact -----

  /** `f` claims at least as much as `g`. */
  predicate ClaimsAtLeast(f: Finality, g: Finality) {
    g.Seen? || f.Finalized? || (f.Confirmed? && g.Confirmed?)
  }

  /** Final only with the required claim and the required depth; confirmed on a
      confirmed claim; otherwise no more than canonical. */
  ghost predicate StateSays(s: seq<Reading>, policy: Policy, confirmations: int, state: State) {
    var final := (exists r :: r in s && ClaimsAtLeast(r.finality, policy.required)) && confirmations >= policy.minConfirmations;
    var confirmed := exists r :: r in s && (r.finality.Confirmed? || r.finality.Finalized?);
    && (state.Finalized? <==> final)
    && (state.Confirmed? <==> !final && confirmed)
    && (state.Canonical? <==> !final && !confirmed)
  }

  lemma BestClaim(s: seq<Reading>, f: Finality)
    requires s != []
    ensures MaxOf(s, ClaimOf()) >= Strength(f) <==> exists r :: r in s && ClaimsAtLeast(r.finality, f)
  {
    var m := MaxOf(s, ClaimOf());
    var r :| r in s && ClaimOf()(r) == m;
    forall x | x in s && ClaimsAtLeast(x.finality, f) ensures m >= Strength(f) { assert ClaimOf()(x) <= m; }
  }

  // ----- where the fact comes from -----

  /** Every field of the fact is the reading's. */
  predicate TakenFrom(t: Transfer, r: Reading) {
    && r.asset == Some(t.asset) && r.collector == Some(t.collector) && r.event == t.event
    && r.number == Some(t.number) && r.hash == Some(t.hash) && r.time == Some(t.time)
    && r.token == t.token && r.sender == t.sender && r.senderText == t.senderText
    && r.recipient == t.recipient && r.recipientText == t.recipientText
    && r.amount == t.amount && r.decimals == t.decimals && r.memo == t.memo
  }

  /** A re-read beats a scan, a scan beats a first sighting. */
  predicate BetterLane(a: Kind, b: Kind) {
    (a.TargetedLookup? && !b.TargetedLookup?) || (a.CursorScan? && b.FastDetect?)
  }

  predicate HasBlock(r: Reading) { r.number.Some? && r.hash.Some? && r.time.Some? }

  /** The reading at `k` names its block, none that does comes from a better lane,
      and none after it from the same. */
  ghost predicate Decides(s: seq<Reading>, k: nat) {
    && k < |s| && HasBlock(s[k])
    && (forall j :: 0 <= j < |s| && HasBlock(s[j]) ==> !BetterLane(s[j].kind, s[k].kind))
    && (forall j :: k < j < |s| && HasBlock(s[j]) ==> s[j].kind != s[k].kind)
  }

  lemma {:induction false} LastOfBest(s: seq<Reading>) returns (k: nat)
    requires s != []
    ensures k < |s| && LastMax(s) == s[k]
    ensures forall j :: k < j < |s| ==> Rank(s[j].kind) < Rank(s[k].kind)
  {
    if |s| == 1 {
      k := 0;
    } else {
      k := LastOfBest(s[..|s| - 1]);
      if Rank(s[|s| - 1].kind) >= Rank(LastMax(s[..|s| - 1]).kind) { k := |s| - 1; }
    }
  }

  /** Filtering keeps order: position `k` of the filtered list is a position of the
      list, and what comes after it there comes after it here. */
  lemma {:induction false} FilterPosition(s: seq<Reading>, p: Reading -> bool, k: nat) returns (i: nat)
    requires k < |Filter(s, p)|
    ensures i < |s| && s[i] == Filter(s, p)[k] && p(s[i])
    ensures forall j :: i < j < |s| && p(s[j]) ==> exists l :: k < l < |Filter(s, p)| && Filter(s, p)[l] == s[j]
  {
    var rest := Filter(s[1..], p);
    if p(s[0]) && k == 0 {
      i := 0;
      forall j | 0 < j < |s| && p(s[j]) ensures exists l :: 0 < l < |Filter(s, p)| && Filter(s, p)[l] == s[j] {
        FilterMember(s[1..], p, s[1..][j - 1]);
        var l :| 0 <= l < |rest| && rest[l] == s[j];
        assert Filter(s, p)[l + 1] == s[j];
      }
    } else {
      var shift := if p(s[0]) then 1 else 0;
      var i' := FilterPosition(s[1..], p, k - shift);
      i := i' + 1;
      forall j | i < j < |s| && p(s[j]) ensures exists l :: k < l < |Filter(s, p)| && Filter(s, p)[l] == s[j] {
        assert s[1..][j - 1] == s[j];
        var l :| k - shift < l < |rest| && rest[l] == s[1..][j - 1];
        assert Filter(s, p)[l + shift] == s[j];
      }
    }
  }

  lemma FactIsTaken(s: seq<Reading>) returns (k: nat)
    requires CanonicalTransfer(s).Some?
    ensures Decides(s, k) && TakenFrom(CanonicalTransfer(s).value, s[k])
  {
    var complete := Filter(s, Complete);
    var l := LastOfBest(complete);
    k := FilterPosition(s, Complete, l);
    forall j | 0 <= j < |s| && HasBlock(s[j]) ensures !BetterLane(s[j].kind, s[k].kind) {
      FilterMember(s, Complete, s[j]);
    }
    forall j | k < j < |s| && HasBlock(s[j]) ensures s[j].kind != s[k].kind {
      var n :| l < n < |complete| && complete[n] == s[j];
    }
  }

  // ----- attestations -----

  /** Each observation attests once, by its last reading: re-reads verify again,
      other final readings speak for finality, the rest detected. */
  ghost predicate RolesSay(s: seq<Reading>, roles: map<Id, Role>) {
    && (forall id :: id in roles ==> exists k :: 0 <= k < |s| && s[k].id == id)
    && (forall k :: 0 <= k < |s| ==> s[k].id in roles)
    && (forall k :: 0 <= k < |s| && LastOfId(s, k) ==>
          && (roles[s[k].id].Reverify? <==> s[k].kind.TargetedLookup?)
          && (roles[s[k].id].Finality? <==> !s[k].kind.TargetedLookup? && s[k].finality.Finalized?))
  }

  predicate LastOfId(s: seq<Reading>, k: nat) {
    k < |s| && forall j :: k < j < |s| ==> s[j].id != s[k].id
  }

  lemma {:induction false} AllAttest(s: seq<Reading>, id: Id)
    ensures id in Roles(s) <==> exists k :: 0 <= k < |s| && s[k].id == id
  {
    if s != [] {
      var front, n := s[..|s| - 1], |s| - 1;
      AllAttest(front, id);
      if id in Roles(front) {
        var k :| 0 <= k < |front| && front[k].id == id;
        assert s[k].id == id;
      }
      forall k | 0 <= k < |s| && s[k].id == id ensures id in Roles(s) {
        if k < n { assert front[k].id == id; }
      }
      if id == s[n].id { assert s[n].id == id; }
    }
  }

  lemma {:induction false} LastAttests(s: seq<Reading>, k: nat)
    requires LastOfId(s, k)
    ensures s[k].id in Roles(s) && Roles(s)[s[k].id] == RoleOf(s[k])
  {
    var n := |s| - 1;
    if k < n {
      assert s[n].id != s[k].id;
      assert s[..n][k] == s[k] && LastOfId(s[..n], k);
      LastAttests(s[..n], k);
    }
  }

  lemma RolesAreSaid(s: seq<Reading>)
    ensures RolesSay(s, Roles(s))
  {
    forall id ensures id in Roles(s) <==> exists k :: 0 <= k < |s| && s[k].id == id { AllAttest(s, id); }
    forall k | 0 <= k < |s| && LastOfId(s, k) ensures Roles(s)[s[k].id] == RoleOf(s[k]) { LastAttests(s, k); }
  }

  // ----- depth -----

  /** The depth is that of the deepest head above the block, at most what 64 bits
      hold, and zero when no head is above it. */
  ghost predicate DepthSays(s: seq<Reading>, number: int, depth: int) {
    && depth >= 0
    && (forall r :: r in s && r.head.Some? ==> Min(r.head.value - number, 0x7FFF_FFFF_FFFF_FFFF) <= depth)
    && (depth > 0 ==> exists r :: r in s && r.head.Some? && Min(r.head.value - number, 0x7FFF_FFFF_FFFF_FFFF) == depth)
  }

  lemma DepthIsSaid(s: seq<Reading>, number: int)
    ensures DepthSays(s, number, Confirmations(s, number))
  {
    ConfirmationsAreDepth(s, number);
    forall r | r in s && r.head.Some? ensures Min(r.head.value - number, 0x7FFF_FFFF_FFFF_FFFF) <= Confirmations(s, number) {
      assert SaturatingSub(r.head.value, number) <= Confirmations(s, number);
    }
  }

  // ----- the whole verdict -----

  /** A verified fact, part by part. */
  ghost predicate FactSays(s: seq<Reading>, policy: Policy, v: Verdict)
    requires v.Verified?
  {
    && (exists k: nat :: Decides(s, k) && TakenFrom(v.transfer, s[k]))
    && StateSays(s, policy, v.confirmations, v.state)
    && RolesSay(s, v.attestations)
    && v.groups == Min(|set i | 0 <= i < |s| :: s[i].group|, U32_MAX)
    && (v.ownNode <==> exists r :: r in s && r.sourceKind == "own_node")
    && DepthSays(s, v.transfer.number, v.confirmations) && v.version == policy.version
  }

  lemma StateIsSaid(s: seq<Reading>, policy: Policy, confirmations: int)
    requires s != []
    ensures StateSays(s, policy, confirmations, StateFor(policy, MaxOf(s, ClaimOf()), confirmations))
  {
    BestClaim(s, policy.required);
    BestClaim(s, Evidence.Finality.Confirmed);
  }

  lemma EstablishedSays(s: seq<Reading>, policy: Policy, discarded: seq<Id>)
    requires s != [] && Establish(s, policy, discarded).Verified?
    ensures FactSays(s, policy, Establish(s, policy, discarded))
  {
    var k := FactIsTaken(s);
    StateIsSaid(s, policy, Confirmations(s, CanonicalTransfer(s).value.number));
    DepthIsSaid(s, CanonicalTransfer(s).value.number);
    RolesAreSaid(s);
  }

  /** The readings by a principal other than the declared one, in order. */
  ghost predicate DiscardsSay(rs: seq<Reading>, discarded: seq<Id>) {
    var forged := Filter(rs, (r: Reading) => r.principal != r.declared);
    |discarded| == |forged| && forall i :: 0 <= i < |forged| ==> discarded[i] == forged[i].id
  }

  lemma {:induction false} DiscardsAreSaid(rs: seq<Reading>)
    ensures DiscardsSay(rs, Impersonated(rs))
  {
    if rs != [] {
      var front, last, p := rs[..|rs| - 1], rs[|rs| - 1], (r: Reading) => r.principal != r.declared;
      DiscardsAreSaid(front);
      assert rs == front + [last];
      FilterConcat(front, [last], p);
    }
  }

  lemma {:induction false} AcceptedSays(rs: seq<Reading>)
    ensures Accepted(rs) == Filter(rs, (r: Reading) => r.principal == r.declared)
  {
    if rs != [] { AcceptedSays(rs[1..]); }
  }

  /** The newest reading's age is still allowed, or the calendar cannot say. */
  ghost predicate Newest(s: seq<Reading>, r: Reading) {
    r in s && forall x :: x in s ==> x.observedAt <= r.observedAt
  }

  /** Why agreeing, settleable evidence is not enough; the reasons are tried in
      this order. */
  ghost predicate LackSays(s: seq<Reading>, policy: Policy, now: Instant, lack: Insufficiency) {
    var reread := exists r :: r in s && r.kind.TargetedLookup?;
    var groups := Min(|set i | 0 <= i < |s| :: s[i].group|, U32_MAX);
    match lack
    case NoEvidence => s == []
    case NoIndependentReread => s != [] && !reread
    case NotEnoughIndependentGroups(have, need) => reread && have == groups < need == policy.minGroups
    case StaleEvidence =>
      && reread && groups >= policy.minGroups
      && exists r :: Newest(s, r) && OnCalendar(r.observedAt + Nanos(policy.maxAge)) && r.observedAt + Nanos(policy.maxAge) < now
    case MissingBlockIdentity =>
      && reread && groups >= policy.minGroups
      && (exists r :: Newest(s, r) && OnCalendar(r.observedAt + Nanos(policy.maxAge)) && now <= r.observedAt + Nanos(policy.maxAge))
      && forall r :: r in s ==> !HasBlock(r)
  }

  /** Why agreeing evidence is refused; a failed execution is named first. */
  ghost predicate RefusalSays(s: seq<Reading>, reason: Rejection) {
    var failed := exists r :: r in s && r.status.Failed?;
    var unsupported := exists r :: r in s && r.asset.None?;
    match reason
    case FailedExecution => failed
    case UnsupportedAsset => !failed && unsupported
    case ForeignRecipient => !failed && !unsupported && exists r :: r in s && r.collector.None?
  }

  ghost predicate Settled(s: seq<Reading>) {
    forall r :: r in s ==> r.status.Success? && r.asset.Some? && r.collector.Some?
  }

  /** The answer in terms of the genuine readings `s`. No two cases overlap. */
  ghost predicate AnswerSays(s: seq<Reading>, policy: Policy, now: Instant, x: Result<Verdict, VerifyError>) {
    match x
    case Err(MixedEvents) => true
    case Err(PolicyOutOfRange) =>
      && s != [] && Agree(s) && Settled(s) && (exists r :: r in s && r.kind.TargetedLookup?)
      && Min(|set i | 0 <= i < |s| :: s[i].group|, U32_MAX) >= policy.minGroups
      && exists r :: Newest(s, r) && !OnCalendar(r.observedAt + Nanos(policy.maxAge))
    case Ok(Conflicted(conflicts, _)) => s != [] && !Agree(s) && forall f :: Named(conflicts, f) <==> Disagree(s, f)
    case Ok(Rejected(reason, _)) => s != [] && Agree(s) && RefusalSays(s, reason)
    case Ok(Insufficient(lack, _)) => Agree(s) && Settled(s) && LackSays(s, policy, now, lack)
    case Ok(Verified(_, _, _, _, _, _, _, _)) => Agree(s) && Settled(s) && FactSays(s, policy, x.value)
  }

  lemma LackIsSaid(s: seq<Reading>, policy: Policy, now: Instant)
    requires s != []
    ensures var lack := Lack(s, policy, now);
            && (lack.Ok? && lack.value.Some? ==> LackSays(s, policy, now, lack.value.value))
            && (lack.Ok? && lack.value.None? ==>
                  && (exists r :: r in s && r.kind.TargetedLookup?)
                  && Min(|set i | 0 <= i < |s| :: s[i].group|, U32_MAX) >= policy.minGroups
                  && exists r :: && Newest(s, r) && OnCalendar(r.observedAt + Nanos(policy.maxAge))
                                 && now <= r.observedAt + Nanos(policy.maxAge))
            && (lack.Err? ==>
                  && lack.error == PolicyOutOfRange && (exists r :: r in s && r.kind.TargetedLookup?)
                  && Min(|set i | 0 <= i < |s| :: s[i].group|, U32_MAX) >= policy.minGroups
                  && exists r :: Newest(s, r) && !OnCalendar(r.observedAt + Nanos(policy.maxAge)))
  {
    var m := MaxOf(s, SeenAt());
    var r :| r in s && SeenAt()(r) == m;
    forall x | x in s ensures x.observedAt <= r.observedAt { assert SeenAt()(x) <= m; }
    assert Newest(s, r);
  }

  lemma FactOrBlockSays(s: seq<Reading>, policy: Policy, now: Instant, discarded: seq<Id>)
    requires s != [] && Agree(s) && Settled(s) && Lack(s, policy, now) == Ok(None)
    ensures AnswerSays(s, policy, now, Ok(Establish(s, policy, discarded)))
    ensures Establish(s, policy, discarded).discarded == discarded
  {
    if Establish(s, policy, discarded).Verified? {
      EstablishedSays(s, policy, discarded);
    } else {
      NoBlockSays(s, policy, now);
    }
  }

  lemma NoBlockSays(s: seq<Reading>, policy: Policy, now: Instant)
    requires s != [] && Settled(s) && Lack(s, policy, now) == Ok(None) && CanonicalTransfer(s).None?
    ensures LackSays(s, policy, now, MissingBlockIdentity)
  {
    LackIsSaid(s, policy, now);
    assert AllSettleable(s);
    CanonicalExactly(s);
    forall r | r in s ensures !HasBlock(r) { assert !Complete(r); }
  }

  lemma WeightSays(s: seq<Reading>, policy: Policy, now: Instant, discarded: seq<Id>)
    requires s != [] && Agree(s) && Settled(s)
    ensures AnswerSays(s, policy, now, Weigh(s, policy, now, discarded))
    ensures Weigh(s, policy, now, discarded) != Err(MixedEvents)
    ensures Weigh(s, policy, now, discarded).Ok? ==> Weigh(s, policy, now, discarded).value.discarded == discarded
  {
    if Lack(s, policy, now) == Ok(None) {
      FactOrBlockSays(s, policy, now, discarded);
    } else {
      LackIsSaid(s, policy, now);
    }
  }

  lemma ConflictSays(s: seq<Reading>)
    ensures FindConflicts(s) == [] <==> Agree(s)
    ensures forall f :: Named(FindConflicts(s), f) <==> Disagree(s, f)
  {
    NoConflictIsAgreement(s);
    forall f ensures Named(FindConflicts(s), f) <==> Disagree(s, f) { ConflictsExactly(s, f); }
  }

  lemma RefusalIsSaid(s: seq<Reading>)
    ensures Reject(s).Some? ==> RefusalSays(s, Reject(s).value)
    ensures Reject(s).None? <==> Settled(s)
  {}

  lemma DecisionSays(s: seq<Reading>, policy: Policy, now: Instant, discarded: seq<Id>)
    ensures var x := Decide(s, policy, now, discarded);
            (x.Ok? ==> x.value.discarded == discarded) && x != Err(MixedEvents) && AnswerSays(s, policy, now, x)
  {
    if s != [] {
      ConflictSays(s);
      RefusalIsSaid(s);
      if Agree(s) && Settled(s) { WeightSays(s, policy, now, discarded); }
    }
  }

  predicate OneAndTheSame(rs: seq<Reading>) {
    forall i, j :: 0 <= i < |rs| && 0 <= j < |rs| ==> rs[i].event == rs[j].event
  }

  /** Every answer of `verify`: mixed events exactly when two readings name
      different ones; otherwise what the genuine readings, and only they, say,
      with the others listed as discarded. */
  lemma VerifySays(rs: seq<Reading>, policy: Policy, now: Instant)
    ensures var x, s := Verify(rs, policy, now), Filter(rs, (r: Reading) => r.principal == r.declared);
            && (x == Err(MixedEvents) <==> !OneAndTheSame(rs))
            && AnswerSays(s, policy, now, x) && (x.Ok? ==> DiscardsSay(rs, x.value.discarded))
  {
    AcceptedSays(rs);
    DiscardsAreSaid(rs);
    DecisionSays(Accepted(rs), policy, now, Impersonated(rs));
    assert OneEvent(rs) <==> OneAndTheSame(rs);
  }
}
