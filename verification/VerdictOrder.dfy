/** What a verdict does not depend on: the order of the readings, repeated
    readings, and readings written by the wrong principal
    (crates/gateway-domain/src/verification.rs). */
module VerdictOrder {
  import opened Common
  import opened Evidence
  import opened Verification

  ghost predicate SameMembers(s: seq<Reading>, t: seq<Reading>) {
    Covers(s, t) && Covers(t, s)
  }

  /** Row identities are keys: one observation plays one role. */
  ghost predicate OneRolePerId(s: seq<Reading>) {
    forall a, b :: a in s && b in s && a.id == b.id ==> RoleOf(a) == RoleOf(b)
  }

  ghost predicate ConflictsAlike(cs: seq<FieldConflict>, ds: seq<FieldConflict>) {
    |cs| == |ds| && forall k :: 0 <= k < |cs| ==> cs[k].field == ds[k].field && Members(cs[k].items) == Members(ds[k].items)
  }

  /** The same verdict, the same reasons, the same compared facts; only the order
      of conflict items, the uncompared fields and the discards may differ. */
  ghost predicate Alike(v: Verdict, w: Verdict) {
    match v
    case Verified(_, _, _, _, _, _, _, _) =>
      && w.Verified? && FactsOf(v.transfer) == FactsOf(w.transfer) && v.attestations == w.attestations
      && v.groups == w.groups && v.ownNode == w.ownNode && v.state == w.state
      && v.confirmations == w.confirmations && v.version == w.version
    case Conflicted(_, _) => w.Conflicted? && ConflictsAlike(v.conflicts, w.conflicts)
    case Insufficient(_, _) => w.Insufficient? && v.lack == w.lack
    case Rejected(_, _) => w.Rejected? && v.reason == w.reason
  }

  ghost predicate SameAnswer(x: Result<Verdict, VerifyError>, y: Result<Verdict, VerifyError>) {
    if x.Ok? then y.Ok? && Alike(x.value, y.value) else x == y
  }

  // ----- each part depends on the members only -----

  lemma SameDisagreements(s: seq<Reading>, t: seq<Reading>, f: Field)
    requires SameMembers(s, t)
    ensures Disagree(s, f) <==> Disagree(t, f)
  {
    if Disagree(s, f) { DisagreementStays(s, t, f); }
    if Disagree(t, f) { DisagreementStays(t, s, f); }
  }

  lemma SameItems(s: seq<Reading>, t: seq<Reading>, f: Field)
    requires SameMembers(s, t)
    ensures Members(Items(s, f)) == Members(Items(t, f))
  {
    forall item ensures item in Items(s, f) <==> item in Items(t, f) {
      ItemsMember(s, f, item);
      ItemsMember(t, f, item);
    }
  }

  lemma {:induction false} SameConflicts(s: seq<Reading>, t: seq<Reading>, n: nat)
    requires SameMembers(s, t) && n <= |FIELDS|
    ensures ConflictsAlike(Conflicts(s, n), Conflicts(t, n))
  {
    if n > 0 {
      var f := FIELDS[n - 1];
      SameConflicts(s, t, n - 1);
      SameDisagreements(s, t, f);
      ContestedIsDisagreement(s, f);
      ContestedIsDisagreement(t, f);
      SameItems(s, t, f);
    }
  }

  lemma SameLack(s: seq<Reading>, t: seq<Reading>, policy: Policy, now: Instant)
    requires SameMembers(s, t) && s != [] && t != []
    ensures Lack(s, policy, now) == Lack(t, policy, now)
  {
    GroupsGrow(s, t);
    GroupsGrow(t, s);
    MaxGrows(s, t, SeenAt());
    MaxGrows(t, s, SeenAt());
  }

  lemma {:induction false} RolesOf(s: seq<Reading>, r: Reading)
    requires OneRolePerId(s) && r in s
    ensures r.id in Roles(s) && Roles(s)[r.id] == RoleOf(r)
  {
    var front, last := s[..|s| - 1], s[|s| - 1];
    assert s == front + [last];
    if r.id == last.id {
      assert last in s;
    } else {
      assert r in front;
      RolesOf(front, r);
    }
  }

  lemma {:induction false} RolesOnly(s: seq<Reading>, id: Id)
    requires id in Roles(s)
    ensures exists r :: r in s && r.id == id
  {
    var front, last := s[..|s| - 1], s[|s| - 1];
    assert s == front + [last];
    if id != last.id { RolesOnly(front, id); }
  }

  lemma RolesInside(s: seq<Reading>, t: seq<Reading>, id: Id)
    requires SameMembers(s, t) && OneRolePerId(s) && OneRolePerId(t) && id in Roles(s)
    ensures id in Roles(t) && Roles(t)[id] == Roles(s)[id]
  {
    RolesOnly(s, id);
    var r :| r in s && r.id == id;
    RolesOf(s, r);
    RolesOf(t, r);
  }

  lemma SameRoles(s: seq<Reading>, t: seq<Reading>)
    requires SameMembers(s, t) && OneRolePerId(s)
    ensures Roles(s) == Roles(t)
  {
    forall id | id in Roles(s) ensures id in Roles(t) && Roles(t)[id] == Roles(s)[id] { RolesInside(s, t, id); }
    forall id | id in Roles(t) ensures id in Roles(s) { RolesInside(t, s, id); }
  }

  lemma SameFacts(s: seq<Reading>, t: seq<Reading>)
    requires SameMembers(s, t) && Agree(s) && AllSettleable(s)
    requires forall a, b :: a in s && b in s ==> a.event == b.event
    ensures CanonicalTransfer(s).Some? <==> CanonicalTransfer(t).Some?
    ensures CanonicalTransfer(s).Some? ==> FactsOf(CanonicalTransfer(s).value) == FactsOf(CanonicalTransfer(t).value)
  {
    CanonicalExactly(s);
    CanonicalExactly(t);
    if CanonicalTransfer(s).Some? {
      var a, b := LastMax(Filter(s, Complete)), LastMax(Filter(t, Complete));
      FilterMember(s, Complete, a);
      FilterMember(t, Complete, b);
      AgreedFacts(s, a, b);
    }
  }

  lemma SameNumbers(s: seq<Reading>, t: seq<Reading>, policy: Policy, number: int)
    requires SameMembers(s, t) && s != [] && t != []
    ensures Confirmations(s, number) == Confirmations(t, number) && IndependentGroups(s) == IndependentGroups(t)
    ensures MaxOf(s, ClaimOf()) == MaxOf(t, ClaimOf())
  {
    ConfirmationsGrow(s, t, number);
    ConfirmationsGrow(t, s, number);
    GroupsGrow(s, t);
    GroupsGrow(t, s);
    MaxGrows(s, t, ClaimOf());
    MaxGrows(t, s, ClaimOf());
  }

  lemma SameFact(s: seq<Reading>, t: seq<Reading>, policy: Policy, d: seq<Id>, e: seq<Id>)
    requires SameMembers(s, t) && OneRolePerId(s) && s != [] && t != [] && Agree(s) && AllSettleable(s)
    requires forall a, b :: a in s && b in s ==> a.event == b.event
    ensures Alike(Establish(s, policy, d), Establish(t, policy, e))
  {
    SameFacts(s, t);
    SameRoles(s, t);
    if CanonicalTransfer(s).Some? { SameNumbers(s, t, policy, CanonicalTransfer(s).value.number); }
  }

  lemma SameWeight(s: seq<Reading>, t: seq<Reading>, policy: Policy, now: Instant, d: seq<Id>, e: seq<Id>)
    requires SameMembers(s, t) && OneRolePerId(s) && s != [] && t != [] && Agree(s) && AllSettleable(s)
    requires forall a, b :: a in s && b in s ==> a.event == b.event
    ensures SameAnswer(Weigh(s, policy, now, d), Weigh(t, policy, now, e))
  {
    SameLack(s, t, policy, now);
    SameFact(s, t, policy, d, e);
  }

  lemma SameRejection(s: seq<Reading>, t: seq<Reading>)
    requires SameMembers(s, t)
    ensures Reject(s) == Reject(t)
  {}

  lemma EmptyTogether(s: seq<Reading>, t: seq<Reading>)
    requires SameMembers(s, t)
    ensures s == [] <==> t == []
  {
    if s != [] { assert s[0] in t; }
    if t != [] { assert t[0] in s; }
  }

  /** The decision is a function of which readings are in evidence. */
  lemma DecisionDependsOnMembers(s: seq<Reading>, t: seq<Reading>, policy: Policy, now: Instant, d: seq<Id>, e: seq<Id>)
    requires SameMembers(s, t) && OneRolePerId(s)
    requires forall a, b :: a in s && b in s ==> a.event == b.event
    ensures SameAnswer(Decide(s, policy, now, d), Decide(t, policy, now, e))
  {
    EmptyTogether(s, t);
    if s != [] {
      SameConflicts(s, t, |FIELDS|);
      if FindConflicts(s) == [] {
        NoConflictIsAgreement(s);
        SameRejection(s, t);
        if Reject(s).None? {
          RejectExactly(s);
          SameWeight(s, t, policy, now, d, e);
        }
      }
    }
  }

  // ----- consequences -----

  lemma OneEventPairs(rs: seq<Reading>)
    ensures OneEvent(rs) <==> forall a, b :: a in rs && b in rs ==> a.event == b.event
  {
    if OneEvent(rs) {
      forall a, b | a in rs && b in rs ensures a.event == b.event { SameEvent(rs, a, b); }
    } else {
      var i :| 0 <= i < |rs| && rs[i].event != rs[0].event;
      assert rs[i] in rs && rs[0] in rs;
    }
  }

  lemma AcceptedAreRead(rs: seq<Reading>)
    ensures Covers(rs, Accepted(rs))
  {
    forall r | r in Accepted(rs) ensures r in rs { FilterMember(rs, Genuine, r); }
  }

  /** Same readings in any order, any number of times: the same answer. */
  lemma VerdictIgnoresOrder(rs: seq<Reading>, qs: seq<Reading>, policy: Policy, now: Instant)
    requires SameMembers(rs, qs) && OneRolePerId(rs)
    ensures SameAnswer(Verify(rs, policy, now), Verify(qs, policy, now))
  {
    OneEventPairs(rs);
    OneEventPairs(qs);
    if OneEvent(rs) {
      FilterCovers(rs, qs, Genuine);
      FilterCovers(qs, rs, Genuine);
      AcceptedAreRead(rs);
      DecisionDependsOnMembers(Accepted(rs), Accepted(qs), policy, now, Impersonated(rs), Impersonated(qs));
    }
  }

  function WithoutDiscards(x: Result<Verdict, VerifyError>): Result<Verdict, VerifyError> {
    if x.Ok? then Ok(x.value.(discarded := [])) else x
  }

  /** Readings by the wrong principal, of the same event and anywhere in the list,
      change nothing but the discard list. */
  lemma ImpersonationIsIgnored(rs: seq<Reading>, forged: seq<Reading>, qs: seq<Reading>, policy: Policy, now: Instant)
    requires forall i :: 0 <= i < |forged| ==> !Genuine(forged[i])
    requires OneEvent(rs + qs) && OneEvent(rs + forged + qs)
    ensures WithoutDiscards(Verify(rs + forged + qs, policy, now)) == WithoutDiscards(Verify(rs + qs, policy, now))
  {
    FilterConcat(rs + forged, qs, Genuine);
    FilterConcat(rs, forged, Genuine);
    FilterConcat(rs, qs, Genuine);
    NoneGenuine(forged);
    assert Accepted(rs) + [] == Accepted(rs);
    DiscardsOnly(Accepted(rs + qs), policy, now, Impersonated(rs + qs), Impersonated(rs + forged + qs));
  }

  lemma {:induction false} NoneGenuine(forged: seq<Reading>)
    requires forall i :: 0 <= i < |forged| ==> !Genuine(forged[i])
    ensures Accepted(forged) == []
  {
    if forged != [] { NoneGenuine(forged[1..]); }
  }

  lemma DiscardsOnly(s: seq<Reading>, policy: Policy, now: Instant, d: seq<Id>, e: seq<Id>)
    ensures WithoutDiscards(Decide(s, policy, now, d)) == WithoutDiscards(Decide(s, policy, now, e))
  {}

  // ----- the uncompared fields -----

  /** Complete, and no complete reading comes from a better lane. */
  ghost predicate Top(s: seq<Reading>, r: Reading) {
    r in s && Complete(r) && forall x :: x in s && Complete(x) ==> Rank(x.kind) <= Rank(r.kind)
  }

  lemma ChosenIsTop(s: seq<Reading>) returns (r: Reading)
    requires AllSettleable(s) && CanonicalTransfer(s).Some?
    ensures Top(s, r) && Settleable(r) && CanonicalTransfer(s).value == Project(r)
  {
    r := LastMax(Filter(s, Complete));
    FilterMember(s, Complete, r);
    forall x | x in s && Complete(x) ensures Rank(x.kind) <= Rank(r.kind) { FilterMember(s, Complete, x); }
  }

  /** Whatever top reading comes last decides. */
  lemma LastTopDecides(front: seq<Reading>, r: Reading)
    requires Top(front + [r], r) && Settleable(r)
    ensures CanonicalTransfer(front + [r]) == Some(Project(r))
  {
    var s := front + [r];
    FilterConcat(front, [r], Complete);
    assert Filter([r], Complete) == [r];
    var complete := Filter(s, Complete);
    assert complete == Filter(front, Complete) + [r];
    assert complete[..|complete| - 1] == Filter(front, Complete);
    forall x | x in complete ensures Rank(x.kind) <= Rank(r.kind) { FilterMember(s, Complete, x); }
  }

  function MovedLast(s: seq<Reading>, i: nat): seq<Reading>
    requires i < |s|
  {
    s[..i] + s[i + 1..] + [s[i]]
  }

  lemma MovedPermutes(s: seq<Reading>, i: nat)
    requires i < |s|
    ensures multiset(MovedLast(s, i)) == multiset(s)
  {
    assert s == s[..i] + [s[i]] + s[i + 1..];
  }

  lemma PermutationCovers(s: seq<Reading>, t: seq<Reading>)
    requires multiset(s) == multiset(t)
    ensures SameMembers(s, t)
  {
    forall r ensures r in s <==> r in t {
      assert r in s <==> r in multiset(s);
      assert r in t <==> r in multiset(t);
    }
  }

  lemma TopMoved(s: seq<Reading>, r: Reading) returns (t: seq<Reading>)
    requires AllSettleable(s) && Top(s, r)
    ensures multiset(t) == multiset(s) && CanonicalTransfer(t) == Some(Project(r))
  {
    var i :| 0 <= i < |s| && s[i] == r;
    t := MovedLast(s, i);
    MovedPermutes(s, i);
    PermutationCovers(s, t);
    LastTopDecides(s[..i] + s[i + 1..], r);
  }

  /** The whole canonical transfer is independent of reading order exactly when
      the best complete readings agree on every field, compared or not. */
  lemma OrderDecidesUncompared(s: seq<Reading>)
    requires AllSettleable(s)
    ensures (forall t :: multiset(t) == multiset(s) ==> CanonicalTransfer(t) == CanonicalTransfer(s))
            <==> (forall a, b :: Top(s, a) && Top(s, b) ==> Project(a) == Project(b))
  {
    if forall t :: multiset(t) == multiset(s) ==> CanonicalTransfer(t) == CanonicalTransfer(s) {
      forall a, b | Top(s, a) && Top(s, b) ensures Project(a) == Project(b) {
        var t := TopMoved(s, a);
        var u := TopMoved(s, b);
      }
    }
    if forall a, b :: Top(s, a) && Top(s, b) ==> Project(a) == Project(b) {
      forall t | multiset(t) == multiset(s) ensures CanonicalTransfer(t) == CanonicalTransfer(s) {
        TopsAgree(s, t);
      }
    }
  }

  lemma TopsAgree(s: seq<Reading>, t: seq<Reading>)
    requires AllSettleable(s) && multiset(s) == multiset(t)
    requires forall a, b :: Top(s, a) && Top(s, b) ==> Project(a) == Project(b)
    ensures CanonicalTransfer(t) == CanonicalTransfer(s)
  {
    PermutationCovers(s, t);
    CanonicalExactly(s);
    CanonicalExactly(t);
    if CanonicalTransfer(s).Some? {
      var a := ChosenIsTop(s);
      var b := ChosenIsTop(t);
      assert Top(s, b);
    }
  }

  lemma BothAccepted(a: Reading, b: Reading)
    requires Genuine(a) && Genuine(b)
    ensures Accepted([a, b]) == [a, b]
  {
    assert [a, b] == [a] + [b];
    FilterConcat([a], [b], Genuine);
    assert Filter([a], Genuine) == [a] && Filter([b], Genuine) == [b];
  }

  /** Of two verified re-reads the second one listed gives the transfer. */
  lemma SecondDecides(a: Reading, b: Reading, policy: Policy, now: Instant)
    requires Genuine(a) && Genuine(b) && a.kind == b.kind && Complete(b) && Settleable(b)
    requires Verify([a, b], policy, now).Ok? && Verify([a, b], policy, now).value.Verified?
    ensures Verify([a, b], policy, now).value.transfer == Project(b)
  {
    BothAccepted(a, b);
    assert [a] + [b] == [a, b];
    LastTopDecides([a], b);
  }

  /** The same re-read by another source, under its own identity, at another time. */
  function Reread(a: Reading, id: Id, group: string, principal: string, time: Instant): Reading {
    a.(id := id, group := group, principal := principal, declared := principal, time := Some(time))
  }

  lemma BothVerify(a: Reading, b: Reading, policy: Policy, now: Instant)
    requires Genuine(a) && Genuine(b) && a.event == b.event && a.id != b.id && Sufficient([a, b], policy, now)
    ensures Verify([a, b], policy, now).Ok? && Verify([a, b], policy, now).value.Verified?
    ensures Verify([b, a], policy, now).Ok? && Verify([b, a], policy, now).value.Verified?
  {
    BothAccepted(a, b);
    VerifiedExactly([a, b], policy, now);
    VerifiedEitherWay([a, b], [b, a], policy, now);
  }

  lemma VerifiedEitherWay(rs: seq<Reading>, qs: seq<Reading>, policy: Policy, now: Instant)
    requires SameMembers(rs, qs) && OneRolePerId(rs)
    requires Verify(rs, policy, now).Ok? && Verify(rs, policy, now).value.Verified?
    ensures Verify(qs, policy, now).Ok? && Verify(qs, policy, now).value.Verified?
  {
    VerdictIgnoresOrder(rs, qs, policy, now);
  }

  /** So two agreeing re-reads by different sources that report different block
      times verify to two different facts, depending on which is listed last. */
  lemma BlockTimeFollowsOrder(a: Reading, id: Id, group: string, principal: string, time: Instant, policy: Policy, now: Instant)
    requires Genuine(a) && a.kind.TargetedLookup? && Complete(a) && a.time != Some(time) && id != a.id
    requires Sufficient([a, Reread(a, id, group, principal, time)], policy, now)
    ensures var b := Reread(a, id, group, principal, time);
            var first, second := Verify([a, b], policy, now), Verify([b, a], policy, now);
            && first.Ok? && second.Ok? && first.value.Verified? && second.value.Verified?
            && first.value.transfer.time == time != second.value.transfer.time
  {
    var b := Reread(a, id, group, principal, time);
    assert a in [a, b] && b in [a, b];
    BothVerify(a, b, policy, now);
    SecondDecides(a, b, policy, now);
    SecondDecides(b, a, policy, now);
  }
}
