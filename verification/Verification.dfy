/** What a group of readings about one event proves
    (crates/gateway-domain/src/verification.rs). */
module Verification {
  import opened Clock
  import opened Common
  import opened Money
  import opened Evidence

  datatype Policy = Policy(version: string, minConfirmations: int, required: Finality, minGroups: U32, maxAge: int)

  datatype Transfer = Transfer(
    asset: Id, collector: Id, event: Event, number: int, hash: string, time: Instant,
    token: string, sender: string, senderText: string, recipient: string, recipientText: string,
    amount: Amount, decimals: int, memo: Option<Memo>)

  datatype Role = Detection | Reverify | Finality
  datatype State = Observed | Canonical | Confirmed | Finalized | Invalidated

  datatype FieldConflict = FieldConflict(field: Field, items: seq<(Id, Value)>)

  datatype Insufficiency =
    | NoEvidence | NoIndependentReread | NotEnoughIndependentGroups(have: nat, need: nat)
    | StaleEvidence | MissingBlockIdentity

  datatype Rejection = UnsupportedAsset | FailedExecution | ForeignRecipient

  datatype Verdict =
    | Verified(transfer: Transfer, attestations: map<Id, Role>, groups: nat, ownNode: bool,
               state: State, confirmations: int, version: string, discarded: seq<Id>)
    | Conflicted(conflicts: seq<FieldConflict>, discarded: seq<Id>)
    | Insufficient(lack: Insufficiency, discarded: seq<Id>)
    | Rejected(reason: Rejection, discarded: seq<Id>)

  datatype VerifyError = MixedEvents | PolicyOutOfRange

  /** `can_transition_to`: one step forward, or invalidation. */
  predicate CanTransition(s: State, t: State) {
    match s
    case Observed => t == Canonical || t == Invalidated
    case Canonical => t == State.Confirmed || t == Invalidated
    case Confirmed => t == State.Finalized || t == Invalidated
    case Finalized => t == Invalidated
    case Invalidated => false
  }

  function Level(s: State): nat {
    match s
    case Observed => 0
    case Canonical => 1
    case Confirmed => 2
    case Finalized => 3
    case Invalidated => 4
  }

  /** Nothing follows invalidation, invalidation may follow anything else, and any
      other step goes exactly one level up. */
  lemma TransitionsGoForward(s: State, t: State)
    ensures CanTransition(s, t) <==> !s.Invalidated? && (t.Invalidated? || Level(t) == Level(s) + 1)
    ensures Level(Observed) < Level(Canonical) < Level(State.Confirmed) < Level(State.Finalized) < Level(Invalidated)
  {}

  /** Reached by allowed transitions, in at most `n` of them. */
  predicate Reaches(s: State, t: State, n: nat)
    decreases n
  {
    s == t || (n > 0 && (CanTransition(s, t)
      || exists mid :: mid in [Canonical, State.Confirmed, State.Finalized] && CanTransition(s, mid) && Reaches(mid, t, n - 1)))
  }

  // ----- the parts of `verify` -----

  predicate OneEvent(rs: seq<Reading>) {
    forall i :: 0 <= i < |rs| ==> rs[i].event == rs[0].event
  }

  predicate Genuine(r: Reading) { r.principal == r.declared }

  function Accepted(rs: seq<Reading>): seq<Reading> { Filter(rs, Genuine) }

  function Impersonated(rs: seq<Reading>): seq<Id> {
    if rs == [] then []
    else Impersonated(rs[..|rs| - 1]) + (if Genuine(rs[|rs| - 1]) then [] else [rs[|rs| - 1].id])
  }

  /** Conflicts over the first `n` compared fields. */
  function Conflicts(s: seq<Reading>, n: nat): seq<FieldConflict>
    requires n <= |FIELDS|
  {
    if n == 0 then []
    else
      var f := FIELDS[n - 1];
      Conflicts(s, n - 1) + (if |Values(Items(s, f))| > 1 then [FieldConflict(f, Items(s, f))] else [])
  }

  function FindConflicts(s: seq<Reading>): seq<FieldConflict> { Conflicts(s, |FIELDS|) }

  function Reject(s: seq<Reading>): Option<Rejection> {
    if exists r :: r in s && r.status == Failed then Some(FailedExecution)
    else if exists r :: r in s && r.asset.None? then Some(UnsupportedAsset)
    else if exists r :: r in s && r.collector.None? then Some(ForeignRecipient)
    else None
  }

  function SeenAt(): Reading -> int { (r: Reading) => r.observedAt }

  function Lack(s: seq<Reading>, policy: Policy, now: Instant): Result<Option<Insufficiency>, VerifyError>
    requires s != []
  {
    if !exists r :: r in s && r.kind == TargetedLookup then Ok(Some(NoIndependentReread))
    else if IndependentGroups(s) < policy.minGroups then
      Ok(Some(NotEnoughIndependentGroups(IndependentGroups(s), policy.minGroups)))
    else
      var deadline := CheckedLater(MaxOf(s, SeenAt()), policy.maxAge);
      if deadline.None? then Err(PolicyOutOfRange)
      else if deadline.value < now then Ok(Some(StaleEvidence))
      else Ok(None)
  }

  predicate Complete(r: Reading) { r.number.Some? && r.hash.Some? && r.time.Some? }

  function Rank(k: Kind): nat {
    match k
    case TargetedLookup => 2
    case CursorScan => 1
    case FastDetect => 0
  }

  /** `max_by_key`: of equally ranked readings, the last. */
  function LastMax(s: seq<Reading>): (r: Reading)
    requires s != []
    ensures r in s
    ensures forall x :: x in s ==> Rank(x.kind) <= Rank(r.kind)
  {
    if |s| == 1 then s[0]
    else
      var front, last := s[..|s| - 1], s[|s| - 1];
      var best := LastMax(front);
      assert s == front + [last];
      if Rank(last.kind) >= Rank(best.kind) then last else best
  }

  function Project(r: Reading): Transfer
    requires Complete(r) && r.asset.Some? && r.collector.Some?
  {
    Transfer(r.asset.value, r.collector.value, r.event, r.number.value, r.hash.value, r.time.value,
             r.token, r.sender, r.senderText, r.recipient, r.recipientText, r.amount, r.decimals, r.memo)
  }

  function CanonicalTransfer(s: seq<Reading>): Option<Transfer> {
    var complete := Filter(s, Complete);
    if complete == [] then None
    else
      var r := LastMax(complete);
      FilterMember(s, Complete, r);
      if r.asset.None? || r.collector.None? then None else Some(Project(r))
  }

  function ClaimOf(): Reading -> int { (r: Reading) => Strength(r.finality) }

  function StateFor(policy: Policy, best: int, confirmations: int): State {
    if best >= Strength(policy.required) && confirmations >= policy.minConfirmations then State.Finalized
    else if best >= Strength(Evidence.Finality.Confirmed) then State.Confirmed
    else Canonical
  }

  function RoleOf(r: Reading): Role {
    if r.kind == TargetedLookup then Reverify
    else if r.finality == Evidence.Finality.Finalized then Finality
    else Detection
  }

  /** Roles by observation, the last reading of an observation deciding. */
  function Roles(s: seq<Reading>): map<Id, Role> {
    if s == [] then map[]
    else
      var last := s[|s| - 1];
      Roles(s[..|s| - 1])[last.id := RoleOf(last)]
  }

  /** The fact that agreeing, sufficient evidence establishes. */
  function Establish(s: seq<Reading>, policy: Policy, discarded: seq<Id>): Verdict
    requires s != []
  {
    var transfer := CanonicalTransfer(s);
    if transfer.None? then Insufficient(MissingBlockIdentity, discarded)
    else
      var confirmations := Confirmations(s, transfer.value.number);
      var state := StateFor(policy, MaxOf(s, ClaimOf()), confirmations);
      Verified(transfer.value, Roles(s), IndependentGroups(s), exists r :: r in s && r.sourceKind == "own_node",
               state, confirmations, policy.version, discarded)
  }

  /** Agreeing evidence: enough, or not yet. */
  function Weigh(s: seq<Reading>, policy: Policy, now: Instant, discarded: seq<Id>): Result<Verdict, VerifyError>
    requires s != []
  {
    var lack := Lack(s, policy, now);
    if lack.Err? then Err(lack.error)
    else if lack.value.Some? then Ok(Insufficient(lack.value.value, discarded))
    else Ok(Establish(s, policy, discarded))
  }

  function Decide(s: seq<Reading>, policy: Policy, now: Instant, discarded: seq<Id>): Result<Verdict, VerifyError> {
    if s == [] then Ok(Insufficient(NoEvidence, discarded))
    else
      var conflicts := FindConflicts(s);
      if conflicts != [] then Ok(Conflicted(conflicts, discarded))
      else if Reject(s).Some? then Ok(Rejected(Reject(s).value, discarded))
      else Weigh(s, policy, now, discarded)
  }

  function Verify(rs: seq<Reading>, policy: Policy, now: Instant): Result<Verdict, VerifyError> {
    if !OneEvent(rs) then Err(MixedEvents)
    else Decide(Accepted(rs), policy, now, Impersonated(rs))
  }

  // ----- when evidence is enough -----

  predicate Named(cs: seq<FieldConflict>, f: Field) {
    exists k :: 0 <= k < |cs| && cs[k].field == f
  }

  lemma {:induction false} ConflictsUpTo(s: seq<Reading>, n: nat, f: Field)
    requires n <= |FIELDS|
    ensures Named(Conflicts(s, n), f) <==> f in FIELDS[..n] && Disagree(s, f)
  {
    if n > 0 {
      ConflictsUpTo(s, n - 1, f);
      ContestedIsDisagreement(s, FIELDS[n - 1]);
      assert FIELDS[..n] == FIELDS[..n - 1] + [FIELDS[n - 1]];
      assert Conflicts(s, n - 1) + [] == Conflicts(s, n - 1);
      ConflictAppended(Conflicts(s, n - 1), FieldConflict(FIELDS[n - 1], Items(s, FIELDS[n - 1])), f);
    }
  }

  lemma ConflictAppended(cs: seq<FieldConflict>, c: FieldConflict, f: Field)
    ensures Named(cs + [c], f) <==> Named(cs, f) || c.field == f
  {
    assert (cs + [c])[|cs|] == c;
    if Named(cs, f) {
      var k :| 0 <= k < |cs| && cs[k].field == f;
      assert (cs + [c])[k].field == f;
    }
  }

  /** A field is reported exactly when two readings clash on it. */
  lemma ConflictsExactly(s: seq<Reading>, f: Field)
    ensures Named(FindConflicts(s), f) <==> Disagree(s, f)
  {
    ConflictsUpTo(s, |FIELDS|, f);
    assert FIELDS[..|FIELDS|] == FIELDS;
  }

  lemma NoConflictIsAgreement(s: seq<Reading>)
    ensures FindConflicts(s) == [] <==> Agree(s)
  {
    var cs := FindConflicts(s);
    forall f ensures Named(cs, f) <==> Disagree(s, f) {
      ConflictsExactly(s, f);
    }
    if cs != [] {
      assert Named(cs, cs[0].field);
    }
  }

  predicate Settleable(r: Reading) { r.status == Success && r.asset.Some? && r.collector.Some? }

  ghost predicate AllSettleable(s: seq<Reading>) { forall r :: r in s ==> Settleable(r) }

  lemma RejectExactly(s: seq<Reading>)
    ensures Reject(s).None? <==> AllSettleable(s)
  {}

  /** The newest reading is still within the policy's age. */
  ghost predicate Recent(s: seq<Reading>, policy: Policy, now: Instant) {
    && (exists r :: r in s && now <= r.observedAt + Nanos(policy.maxAge))
    && (exists r :: r in s && OnCalendar(r.observedAt + Nanos(policy.maxAge)) && forall x :: x in s ==> x.observedAt <= r.observedAt)
  }

  /** Everything a canonical fact rests on. */
  ghost predicate Sufficient(s: seq<Reading>, policy: Policy, now: Instant) {
    && s != [] && Agree(s) && AllSettleable(s)
    && (exists r :: r in s && r.kind == TargetedLookup)
    && IndependentGroups(s) >= policy.minGroups
    && Recent(s, policy, now)
    && (exists r :: r in s && Complete(r))
  }

  lemma LackExactly(s: seq<Reading>, policy: Policy, now: Instant)
    requires s != []
    ensures Lack(s, policy, now) == Ok(None) <==>
            && (exists r :: r in s && r.kind == TargetedLookup)
            && IndependentGroups(s) >= policy.minGroups && Recent(s, policy, now)
  {
    var m := MaxOf(s, SeenAt());
    var newest :| newest in s && SeenAt()(newest) == m;
    assert forall x :: x in s ==> SeenAt()(x) <= m;
  }

  lemma CanonicalExactly(s: seq<Reading>)
    requires AllSettleable(s)
    ensures CanonicalTransfer(s).Some? <==> exists r :: r in s && Complete(r)
  {
    var complete := Filter(s, Complete);
    if complete != [] {
      FilterMember(s, Complete, complete[0]);
      FilterMember(s, Complete, LastMax(complete));
    }
    forall r | r in s && Complete(r) ensures complete != [] {
      FilterMember(s, Complete, r);
    }
  }

  /** A fact is created exactly on sufficient evidence about one event. */
  lemma VerifiedExactly(rs: seq<Reading>, policy: Policy, now: Instant)
    ensures Verify(rs, policy, now).Ok? && Verify(rs, policy, now).value.Verified? <==>
            OneEvent(rs) && Sufficient(Accepted(rs), policy, now)
  {
    var s := Accepted(rs);
    NoConflictIsAgreement(s);
    RejectExactly(s);
    if s != [] && AllSettleable(s) {
      LackExactly(s, policy, now);
      CanonicalExactly(s);
    }
  }

  // ----- evidence that only grows -----

  lemma AcceptedGrows(rs: seq<Reading>, more: seq<Reading>)
    requires Covers(more, rs)
    ensures Covers(Accepted(more), Accepted(rs))
  {
    FilterCovers(rs, more, Genuine);
  }

  lemma DisagreementStays(s: seq<Reading>, t: seq<Reading>, f: Field)
    requires Covers(t, s) && Disagree(s, f)
    ensures Disagree(t, f)
  {
    var a, b :| a in s && b in s && Clash(f, a, b);
    assert a in t && b in t;
  }

  /** A conflicted verdict stays conflicted, over at least the same fields. */
  lemma ConflictedStays(rs: seq<Reading>, more: seq<Reading>, policy: Policy, now: Instant, later: Instant)
    requires Covers(more, rs) && OneEvent(more)
    requires Verify(rs, policy, now).Ok? && Verify(rs, policy, now).value.Conflicted?
    ensures Verify(more, policy, later).Ok? && Verify(more, policy, later).value.Conflicted?
    ensures forall f :: Named(Verify(rs, policy, now).value.conflicts, f) ==> Named(Verify(more, policy, later).value.conflicts, f)
  {
    var s, t := Accepted(rs), Accepted(more);
    AcceptedGrows(rs, more);
    assert s[0] in t;
    forall f | Named(FindConflicts(s), f) ensures Named(FindConflicts(t), f) {
      ConflictsExactly(s, f);
      ConflictsExactly(t, f);
      DisagreementStays(s, t, f);
    }
    assert Named(FindConflicts(s), FindConflicts(s)[0].field);
  }

  /** A rejected verdict is later rejected or conflicted, never anything else. */
  lemma RejectedStays(rs: seq<Reading>, more: seq<Reading>, policy: Policy, now: Instant, later: Instant)
    requires Covers(more, rs) && OneEvent(more)
    requires Verify(rs, policy, now).Ok? && Verify(rs, policy, now).value.Rejected?
    ensures Verify(more, policy, later).Ok?
    ensures Verify(more, policy, later).value.Rejected? || Verify(more, policy, later).value.Conflicted?
  {
    var s, t := Accepted(rs), Accepted(more);
    AcceptedGrows(rs, more);
    RejectExactly(s);
    RejectExactly(t);
    var r :| r in s && !Settleable(r);
    assert r in t;
  }

  /** The compared facts of a transfer, and the event they are about. */
  datatype Facts = Facts(event: Event, asset: Id, number: int, hash: string, token: string,
                         recipient: string, amount: Amount, memo: Option<Memo>)

  function FactsOf(t: Transfer): Facts {
    Facts(t.event, t.asset, t.number, t.hash, t.token, t.recipient, t.amount, t.memo)
  }

  lemma SameValue(s: seq<Reading>, f: Field, a: Reading, b: Reading)
    requires Agree(s) && a in s && b in s && Read(f, a).Some? && Read(f, b).Some?
    ensures Read(f, a) == Read(f, b)
  {
    assert !Disagree(s, f);
    assert !Clash(f, a, b);
  }

  /** In agreeing evidence any two complete readings project to the same facts. */
  lemma AgreedFacts(s: seq<Reading>, a: Reading, b: Reading)
    requires Agree(s) && AllSettleable(s) && a in s && b in s && Complete(a) && Complete(b) && a.event == b.event
    ensures FactsOf(Project(a)) == FactsOf(Project(b))
  {
    SameValue(s, AmountRaw, a, b);
    SameValue(s, Recipient, a, b);
    SameValue(s, TokenKey, a, b);
    SameValue(s, MemoField, a, b);
    SameValue(s, Asset, a, b);
    SameValue(s, BlockHash, a, b);
    SameValue(s, BlockNumber, a, b);
  }

  lemma VerifiedIsEstablished(rs: seq<Reading>, policy: Policy, now: Instant)
    requires Verify(rs, policy, now).Ok? && Verify(rs, policy, now).value.Verified?
    ensures Accepted(rs) != [] && Verify(rs, policy, now).value == Establish(Accepted(rs), policy, Impersonated(rs))
  {
    var s := Accepted(rs);
    assert Verify(rs, policy, now) == Decide(s, policy, now, Impersonated(rs)) == Weigh(s, policy, now, Impersonated(rs));
  }

  lemma EstablishedFrom(s: seq<Reading>, policy: Policy, discarded: seq<Id>) returns (r: Reading)
    requires s != [] && Establish(s, policy, discarded).Verified?
    ensures r in s && Complete(r) && r.asset.Some? && r.collector.Some?
    ensures Establish(s, policy, discarded).transfer == Project(r)
  {
    r := LastMax(Filter(s, Complete));
    FilterMember(s, Complete, r);
  }

  /** The reading the canonical values were taken from. */
  lemma ChosenReading(rs: seq<Reading>, policy: Policy, now: Instant) returns (r: Reading)
    requires Verify(rs, policy, now).Ok? && Verify(rs, policy, now).value.Verified?
    ensures r in Accepted(rs) && Complete(r) && r.asset.Some? && r.collector.Some?
    ensures Verify(rs, policy, now).value.transfer == Project(r)
    ensures r in rs
  {
    VerifiedIsEstablished(rs, policy, now);
    r := EstablishedFrom(Accepted(rs), policy, Impersonated(rs));
    FilterMember(rs, Genuine, r);
  }

  lemma SameEvent(rs: seq<Reading>, a: Reading, b: Reading)
    requires OneEvent(rs) && a in rs && b in rs
    ensures a.event == b.event
  {}

  /** Where the other parts of a verified verdict come from. */
  lemma VerifiedParts(rs: seq<Reading>, policy: Policy, now: Instant)
    requires Verify(rs, policy, now).Ok? && Verify(rs, policy, now).value.Verified?
    ensures var v, s := Verify(rs, policy, now).value, Accepted(rs);
            && s != [] && v.confirmations == Confirmations(s, v.transfer.number)
            && v.state == StateFor(policy, MaxOf(s, ClaimOf()), v.confirmations)
            && v.groups == IndependentGroups(s) && (v.ownNode <==> exists r :: r in s && r.sourceKind == "own_node")
            && v.version == policy.version
  {
    VerifiedIsEstablished(rs, policy, now);
  }

  lemma FactsStay(rs: seq<Reading>, more: seq<Reading>, policy: Policy, now: Instant, later: Instant)
    requires Covers(more, rs)
    requires Verify(rs, policy, now).Ok? && Verify(rs, policy, now).value.Verified?
    requires Verify(more, policy, later).Ok? && Verify(more, policy, later).value.Verified?
    ensures FactsOf(Verify(rs, policy, now).value.transfer) == FactsOf(Verify(more, policy, later).value.transfer)
  {
    AcceptedGrows(rs, more);
    VerifiedExactly(more, policy, later);
    var a := ChosenReading(rs, policy, now);
    var b := ChosenReading(more, policy, later);
    SameEvent(more, a, b);
    AgreedFacts(Accepted(more), a, b);
  }

  /** Two verified verdicts on growing evidence state the same facts, and the
      later one is at least as final, as deep and as independent. */
  lemma VerifiedOnlyAdvances(rs: seq<Reading>, more: seq<Reading>, policy: Policy, now: Instant, later: Instant)
    requires Covers(more, rs)
    requires Verify(rs, policy, now).Ok? && Verify(rs, policy, now).value.Verified?
    requires Verify(more, policy, later).Ok? && Verify(more, policy, later).value.Verified?
    ensures var v, w := Verify(rs, policy, now).value, Verify(more, policy, later).value;
            && FactsOf(v.transfer) == FactsOf(w.transfer)
            && v.confirmations <= w.confirmations && Level(v.state) <= Level(w.state) && Reaches(v.state, w.state, 2)
            && v.groups <= w.groups && (v.ownNode ==> w.ownNode)
  {
    FactsStay(rs, more, policy, now, later);
    VerifiedParts(rs, policy, now);
    VerifiedParts(more, policy, later);
    AcceptedGrows(rs, more);
    Advances(Accepted(rs), Accepted(more), policy, Verify(rs, policy, now).value.transfer.number);
  }

  lemma Advances(s: seq<Reading>, t: seq<Reading>, policy: Policy, number: int)
    requires s != [] && t != [] && Covers(t, s)
    ensures Confirmations(s, number) <= Confirmations(t, number) && IndependentGroups(s) <= IndependentGroups(t)
    ensures var x := StateFor(policy, MaxOf(s, ClaimOf()), Confirmations(s, number));
            var y := StateFor(policy, MaxOf(t, ClaimOf()), Confirmations(t, number));
            Level(x) <= Level(y) && Reaches(x, y, 2)
  {
    ConfirmationsGrow(s, t, number);
    MaxGrows(s, t, ClaimOf());
    GroupsGrow(s, t);
    StateGrows(policy, MaxOf(s, ClaimOf()), MaxOf(t, ClaimOf()), Confirmations(s, number), Confirmations(t, number));
  }

  lemma StateGrows(policy: Policy, best: int, better: int, depth: int, deeper: int)
    requires best <= better && depth <= deeper
    ensures Level(StateFor(policy, best, depth)) <= Level(StateFor(policy, better, deeper))
    ensures Reaches(StateFor(policy, best, depth), StateFor(policy, better, deeper), 2)
  {
    assert CanTransition(Canonical, State.Confirmed) && Reaches(State.Confirmed, State.Finalized, 1);
  }

  // ----- the loops -----

  method EnsureOneEvent(rs: seq<Reading>) returns (r: Result<(), VerifyError>)
    ensures r == if OneEvent(rs) then Ok(()) else Err(MixedEvents)
  {
    var identity: Option<Event> := None;
    for n := 0 to |rs|
      invariant OneEvent(rs[..n])
      invariant identity == if n == 0 then None else Some(rs[0].event)
    {
      match identity {
        case None => identity := Some(rs[n].event);
        case Some(first) =>
          if first != rs[n].event {
            return Err(MixedEvents);
          }
      }
    }
    return Ok(());
  }

  /** The filter of `verify`, which notes what it drops as it goes. */
  method Screen(rs: seq<Reading>) returns (accepted: seq<Reading>, discarded: seq<Id>)
    ensures accepted == Accepted(rs) && discarded == Impersonated(rs)
  {
    accepted, discarded := [], [];
    for n := 0 to |rs|
      invariant accepted == Accepted(rs[..n]) && discarded == Impersonated(rs[..n])
    {
      FilterConcat(rs[..n], [rs[n]], Genuine);
      assert rs[..n + 1] == rs[..n] + [rs[n]] && rs[..n + 1][..n] == rs[..n];
      if rs[n].principal == rs[n].declared {
        accepted := accepted + [rs[n]];
      } else {
        discarded := discarded + [rs[n].id];
      }
    }
    assert rs[..|rs|] == rs;
  }

  method CollectItems(s: seq<Reading>, f: Field) returns (items: seq<(Id, Value)>)
    ensures items == Items(s, f)
  {
    items := [];
    for n := 0 to |s|
      invariant items == Items(s[..n], f)
    {
      assert s[..n + 1][..n] == s[..n];
      var value := Read(f, s[n]);
      if value.Some? {
        items := items + [(s[n].id, value.value)];
      }
    }
    assert s[..|s|] == s;
  }

  method CollectConflicts(s: seq<Reading>) returns (conflicts: seq<FieldConflict>)
    ensures conflicts == FindConflicts(s)
  {
    conflicts := [];
    for n := 0 to |FIELDS|
      invariant conflicts == Conflicts(s, n)
    {
      var items := CollectItems(s, FIELDS[n]);
      if |Values(items)| > 1 {
        conflicts := conflicts + [FieldConflict(FIELDS[n], items)];
      }
    }
  }

  method AttestationRoles(s: seq<Reading>) returns (roles: map<Id, Role>)
    ensures roles == Roles(s)
  {
    roles := map[];
    for n := 0 to |s|
      invariant roles == Roles(s[..n])
    {
      assert s[..n + 1][..n] == s[..n];
      roles := roles[s[n].id := RoleOf(s[n])];
    }
    assert s[..|s|] == s;
  }

  /** `verify` itself. */
  method VerifyReadings(rs: seq<Reading>, policy: Policy, now: Instant) returns (r: Result<Verdict, VerifyError>)
    ensures r == Verify(rs, policy, now)
  {
    var one := EnsureOneEvent(rs);
    if one.Err? {
      return Err(one.error);
    }
    var accepted, discarded := Screen(rs);
    if accepted == [] {
      return Ok(Insufficient(NoEvidence, discarded));
    }
    var conflicts := CollectConflicts(accepted);
    if conflicts != [] {
      return Ok(Conflicted(conflicts, discarded));
    }
    var rejection := Reject(accepted);
    if rejection.Some? {
      return Ok(Rejected(rejection.value, discarded));
    }
    var lack := Lack(accepted, policy, now);
    if lack.Err? {
      return Err(lack.error);
    }
    if lack.value.Some? {
      return Ok(Insufficient(lack.value.value, discarded));
    }
    var transfer := CanonicalTransfer(accepted);
    if transfer.None? {
      return Ok(Insufficient(MissingBlockIdentity, discarded));
    }
    var confirmations := Confirmations(accepted, transfer.value.number);
    var state := StateFor(policy, MaxOf(accepted, ClaimOf()), confirmations);
    var attestations := AttestationRoles(accepted);
    return Ok(Verified(transfer.value, attestations, IndependentGroups(accepted),
                       exists r :: r in accepted && r.sourceKind == "own_node",
                       state, confirmations, policy.version, discarded));
  }
}
