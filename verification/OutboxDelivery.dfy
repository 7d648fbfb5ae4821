/** One delivery pass: claim, group by merchant, deliver, count
    (crates/gateway-application/src/outbox.rs). */
module OutboxDelivery {
  import opened Clock
  import opened Common
  import opened Money
  import opened OutboxRows
  import opened OutboxRuns

  datatype Report = Report(claimed: nat, delivered: nat, rescheduled: nat, deadLettered: nat, endpointsMissing: nat)

  const NOTHING: Report := Report(0, 0, 0, 0, 0)

  function SaturatingAdd(a: nat, b: nat): nat { Min(a + b, U32_MAX) }

  function Absorb(a: Report, b: Report): Report {
    Report(SaturatingAdd(a.claimed, b.claimed), SaturatingAdd(a.delivered, b.delivered),
           SaturatingAdd(a.rescheduled, b.rescheduled), SaturatingAdd(a.deadLettered, b.deadLettered),
           SaturatingAdd(a.endpointsMissing, b.endpointsMissing))
  }

  datatype DeliveryError = InvalidBatchLimit | WindowOverflow | LookupFailed | WorkFailed

  /** Everything a pass learns from outside: a merchant's active endpoints (absent
      when the lookup fails), how sending each event went, and when it ended. */
  datatype World = World(endpoints: Id -> Option<seq<Id>>, answers: Id -> Answer, at: Id -> Instant)

  predicate Listening(e: Event, endpoints: seq<Id>) {
    if e.target.Some? then e.target.value in endpoints else endpoints != []
  }

  /** What becomes of one event, given its merchant's endpoints. */
  function FateOf(e: Event, endpoints: seq<Id>, w: World, maxAttempts: nat): Option<Completion> {
    CompletionFor(e, Listening(e, endpoints), w.answers(e.id), maxAttempts, w.at(e.id))
  }

  /** Counts one completed event into a report. */
  function Count(report: Report, c: Completion, missing: bool): Report {
    var r := report.(claimed := SaturatingAdd(report.claimed, 1));
    match c
    case Deliver(_) => r.(delivered := SaturatingAdd(r.delivered, 1))
    case Retry(_, _) => r.(rescheduled := SaturatingAdd(r.rescheduled, 1))
    case Bury(_, _) =>
      r.(deadLettered := SaturatingAdd(r.deadLettered, 1),
         endpointsMissing := if missing then SaturatingAdd(r.endpointsMissing, 1) else r.endpointsMissing)
  }

  predicate Missing(e: Event, endpoints: seq<Id>) { e.merchant.Some? && !Listening(e, endpoints) }

  /** The report of `deliver_merchant`: the events in order, up to the first one
      whose work fails. */
  function Tally(events: seq<Event>, endpoints: seq<Id>, w: World, maxAttempts: nat): Result<Report, DeliveryError> {
    if events == [] then Ok(NOTHING)
    else
      var e := events[|events| - 1];
      var before := Tally(events[..|events| - 1], endpoints, w, maxAttempts);
      if before.Err? then before
      else
        var c := FateOf(e, endpoints, w, maxAttempts);
        if c.None? then Err(WorkFailed) else Ok(Count(before.value, c.value, Missing(e, endpoints)))
  }

  /** And what it does to the rows meanwhile. */
  function Rewrite(rows: Rows, events: seq<Event>, endpoints: seq<Id>, w: World, maxAttempts: nat): Rows {
    if events == [] then rows
    else
      var e, front := events[|events| - 1], events[..|events| - 1];
      var before := Rewrite(rows, front, endpoints, w, maxAttempts);
      var c := FateOf(e, endpoints, w, maxAttempts);
      if Tally(front, endpoints, w, maxAttempts).Err? || c.None? then before else CompleteRow(before, e.id, c.value)
  }

  function MerchantTally(merchant: Option<Id>, events: seq<Event>, w: World, maxAttempts: nat): Result<Report, DeliveryError> {
    if merchant.None? then Tally(events, [], w, maxAttempts)
    else
      var endpoints := w.endpoints(merchant.value);
      if endpoints.None? then Err(LookupFailed) else Tally(events, endpoints.value, w, maxAttempts)
  }

  function MerchantRewrite(rows: Rows, merchant: Option<Id>, events: seq<Event>, w: World, maxAttempts: nat): Rows {
    if merchant.None? then Rewrite(rows, events, [], w, maxAttempts)
    else
      var endpoints := w.endpoints(merchant.value);
      if endpoints.None? then rows else Rewrite(rows, events, endpoints.value, w, maxAttempts)
  }

  // ----- what a share comes to -----

  predicate Balanced(r: Report) { r.claimed == r.delivered + r.rescheduled + r.deadLettered && r.endpointsMissing <= r.deadLettered }

  predicate Accounts(r: Report, n: nat) { r.claimed == n && Balanced(r) }

  lemma CountBalances(report: Report, c: Completion, missing: bool)
    requires Balanced(report) && report.claimed < U32_MAX
    ensures Accounts(Count(report, c, missing), report.claimed + 1)
  {}

  lemma AbsorbBalances(a: Report, b: Report, n: nat, m: nat)
    requires Accounts(a, n) && Accounts(b, m) && n + m <= U32_MAX
    ensures Accounts(Absorb(a, b), n + m)
  {}

  /** The counts are of the events, each counted once. */
  lemma {:induction false} TallyBalances(events: seq<Event>, endpoints: seq<Id>, w: World, maxAttempts: nat)
    requires |events| <= U32_MAX && Tally(events, endpoints, w, maxAttempts).Ok?
    ensures Accounts(Tally(events, endpoints, w, maxAttempts).value, |events|)
  {
    if events == [] {
      assert Tally(events, endpoints, w, maxAttempts).value == NOTHING;
    } else {
      var front, last := events[..|events| - 1], events[|events| - 1];
      TallyBalances(front, endpoints, w, maxAttempts);
      CountBalances(Tally(front, endpoints, w, maxAttempts).value,
                    FateOf(last, endpoints, w, maxAttempts).value, Missing(last, endpoints));
    }
  }

  predicate Distinct(events: seq<Event>) {
    forall i, j :: 0 <= i < j < |events| ==> events[i].id != events[j].id
  }

  predicate Mentions(events: seq<Event>, id: Id) {
    exists i :: 0 <= i < |events| && events[i].id == id
  }

  /** A share touches no other rows. */
  lemma {:induction false} RewriteFrame(rows: Rows, events: seq<Event>, endpoints: seq<Id>, w: World, maxAttempts: nat)
    ensures var after := Rewrite(rows, events, endpoints, w, maxAttempts);
            after.Keys == rows.Keys && forall id :: id in rows && !Mentions(events, id) ==> after[id] == rows[id]
  {
    if events != [] {
      var front, last := events[..|events| - 1], events[|events| - 1];
      RewriteFrame(rows, front, endpoints, w, maxAttempts);
      assert forall id :: Mentions(front, id) ==> Mentions(events, id);
      assert Mentions(events, last.id);
    }
  }

  /** And completes every row of its own exactly once, as that event fared. */
  lemma {:induction false} RewriteCompletes(rows: Rows, events: seq<Event>, endpoints: seq<Id>, w: World, maxAttempts: nat, k: nat)
    requires Distinct(events) && Tally(events, endpoints, w, maxAttempts).Ok? && k < |events| && events[k].id in rows
    ensures var c := FateOf(events[k], endpoints, w, maxAttempts);
            c.Some? && events[k].id in Rewrite(rows, events, endpoints, w, maxAttempts)
            && Rewrite(rows, events, endpoints, w, maxAttempts)[events[k].id] == Complete(rows[events[k].id], c.value)
  {
    var front, last := events[..|events| - 1], events[|events| - 1];
    RewriteFrame(rows, front, endpoints, w, maxAttempts);
    if k == |events| - 1 {
      assert !Mentions(front, last.id);
    } else {
      RewriteCompletes(rows, front, endpoints, w, maxAttempts, k);
      assert front[k] == events[k];
    }
  }

  // ----- grouping by merchant -----

  datatype Group = Group(merchant: Option<Id>, queue: seq<Event>)

  function SlotOf(groups: seq<Group>, merchant: Option<Id>): (p: nat)
    ensures p <= |groups| && (p < |groups| ==> groups[p].merchant == merchant)
    ensures forall i :: 0 <= i < p ==> groups[i].merchant != merchant
  {
    if groups == [] then 0 else if groups[0].merchant == merchant then 0 else 1 + SlotOf(groups[1..], merchant)
  }

  function Placed(groups: seq<Group>, e: Event): seq<Group> {
    var p := SlotOf(groups, e.merchant);
    if p < |groups| then groups[p := Group(e.merchant, groups[p].queue + [e])] else groups + [Group(e.merchant, [e])]
  }

  function Grouped(events: seq<Event>): seq<Group> {
    if events == [] then [] else Placed(Grouped(events[..|events| - 1]), events[|events| - 1])
  }

  function Of(merchant: Option<Id>): Event -> bool { (e: Event) => e.merchant == merchant }

  /** One queue per merchant, holding that merchant's events in order. */
  ghost predicate Partition(groups: seq<Group>, events: seq<Event>) {
    && (forall i, j :: 0 <= i < j < |groups| ==> groups[i].merchant != groups[j].merchant)
    && (forall i :: 0 <= i < |groups| ==> groups[i].queue == Filter(events, Of(groups[i].merchant)))
    && (forall e :: e in events ==> exists i :: 0 <= i < |groups| && groups[i].merchant == e.merchant)
  }

  lemma PlacedPartitions(groups: seq<Group>, events: seq<Event>, e: Event)
    requires Partition(groups, events)
    ensures Partition(Placed(groups, e), events + [e])
  {
    var after := Placed(groups, e);
    var p := SlotOf(groups, e.merchant);
    QueuesGrow(groups, events, e);
    forall x | x in events + [e] ensures exists i :: 0 <= i < |after| && after[i].merchant == x.merchant {
      if x in events {
        var i :| 0 <= i < |groups| && groups[i].merchant == x.merchant;
        assert after[i].merchant == x.merchant;
      } else {
        assert after[p].merchant == x.merchant;
      }
    }
  }

  lemma QueuesGrow(groups: seq<Group>, events: seq<Event>, e: Event)
    requires Partition(groups, events)
    ensures forall i :: 0 <= i < |Placed(groups, e)| ==>
              Placed(groups, e)[i].queue == Filter(events + [e], Of(Placed(groups, e)[i].merchant))
  {
    var after := Placed(groups, e);
    forall i | 0 <= i < |after| ensures after[i].queue == Filter(events + [e], Of(after[i].merchant)) {
      FilterConcat(events, [e], Of(after[i].merchant));
      if i == |groups| { NoneOf(groups, events, e.merchant); }
    }
  }

  lemma NoneOf(groups: seq<Group>, events: seq<Event>, merchant: Option<Id>)
    requires Partition(groups, events) && SlotOf(groups, merchant) == |groups|
    ensures Filter(events, Of(merchant)) == []
  {
    var own := Filter(events, Of(merchant));
    if own != [] {
      FilterMember(events, Of(merchant), own[0]);
    }
  }

  lemma {:induction false} GroupedPartitions(events: seq<Event>)
    ensures Partition(Grouped(events), events)
  {
    if events != [] {
      var front, last := events[..|events| - 1], events[|events| - 1];
      GroupedPartitions(front);
      PlacedPartitions(Grouped(front), front, last);
      assert events == front + [last];
    }
  }

  function TotalQueued(groups: seq<Group>): nat {
    if groups == [] then 0 else TotalQueued(groups[..|groups| - 1]) + |groups[|groups| - 1].queue|
  }

  lemma {:induction false} TotalUpdated(groups: seq<Group>, p: nat, g: Group)
    requires p < |groups| && |g.queue| == |groups[p].queue| + 1
    ensures TotalQueued(groups[p := g]) == TotalQueued(groups) + 1
  {
    var after := groups[p := g];
    var front := groups[..|groups| - 1];
    if p == |groups| - 1 {
      assert after[..|after| - 1] == front;
    } else {
      TotalUpdated(front, p, g);
      assert after[..|after| - 1] == front[p := g];
    }
  }

  /** No event is lost or counted twice by the grouping. */
  lemma {:induction false} GroupedKeepsAll(events: seq<Event>)
    ensures TotalQueued(Grouped(events)) == |events|
  {
    if events != [] {
      var front, last := events[..|events| - 1], events[|events| - 1];
      GroupedKeepsAll(front);
      var groups := Grouped(front);
      var p := SlotOf(groups, last.merchant);
      if p < |groups| {
        TotalUpdated(groups, p, Group(last.merchant, groups[p].queue + [last]));
      } else {
        assert (groups + [Group(last.merchant, [last])])[..|groups|] == groups;
      }
    }
  }

  // ----- the whole pass -----

  datatype Passed = Passed(report: Report, error: Option<DeliveryError>)

  /** The outcomes absorbed in order; the first error is kept. */
  function AbsorbAll(outcomes: seq<Result<Report, DeliveryError>>): Passed {
    if outcomes == [] then Passed(NOTHING, None)
    else
      var before, last := AbsorbAll(outcomes[..|outcomes| - 1]), outcomes[|outcomes| - 1];
      if last.Ok? then Passed(Absorb(before.report, last.value), before.error)
      else Passed(before.report, if before.error.Some? then before.error else Some(last.error))
  }

  /** Every group runs to its end, whatever its neighbours do. */
  function Outcomes(groups: seq<Group>, w: World, maxAttempts: nat): seq<Result<Report, DeliveryError>> {
    seq(|groups|, i requires 0 <= i < |groups| => MerchantTally(groups[i].merchant, groups[i].queue, w, maxAttempts))
  }

  function PassReport(groups: seq<Group>, w: World, maxAttempts: nat): Passed {
    AbsorbAll(Outcomes(groups, w, maxAttempts))
  }

  function PassRows(rows: Rows, groups: seq<Group>, w: World, maxAttempts: nat): Rows {
    if groups == [] then rows
    else
      var g := groups[|groups| - 1];
      MerchantRewrite(PassRows(rows, groups[..|groups| - 1], w, maxAttempts), g.merchant, g.queue, w, maxAttempts)
  }

  lemma MerchantBalances(g: Group, w: World, maxAttempts: nat)
    requires |g.queue| <= U32_MAX && MerchantTally(g.merchant, g.queue, w, maxAttempts).Ok?
    ensures Accounts(MerchantTally(g.merchant, g.queue, w, maxAttempts).value, |g.queue|)
  {
    if g.merchant.None? {
      TallyBalances(g.queue, [], w, maxAttempts);
    } else {
      TallyBalances(g.queue, w.endpoints(g.merchant.value).value, w, maxAttempts);
    }
  }

  predicate AllAccount(outcomes: seq<Result<Report, DeliveryError>>, groups: seq<Group>) {
    && |outcomes| == |groups|
    && forall i :: 0 <= i < |groups| && outcomes[i].Ok? ==> Accounts(outcomes[i].value, |groups[i].queue|)
  }

  lemma {:induction false} AbsorbedBalances(outcomes: seq<Result<Report, DeliveryError>>, groups: seq<Group>)
    requires AllAccount(outcomes, groups) && TotalQueued(groups) <= U32_MAX && AbsorbAll(outcomes).error.None?
    ensures Accounts(AbsorbAll(outcomes).report, TotalQueued(groups))
  {
    if groups == [] {
      NothingAbsorbed();
    } else {
      var front, early := outcomes[..|outcomes| - 1], groups[..|groups| - 1];
      LastAbsorbed(outcomes);
      AllAccountEarly(outcomes, groups);
      AbsorbedBalances(front, early);
      AbsorbBalances(AbsorbAll(front).report, outcomes[|early|].value, TotalQueued(early), |groups[|early|].queue|);
    }
  }

  lemma NothingAbsorbed()
    ensures Accounts(AbsorbAll([]).report, TotalQueued([]))
  {}

  lemma AllAccountEarly(outcomes: seq<Result<Report, DeliveryError>>, groups: seq<Group>)
    requires AllAccount(outcomes, groups) && groups != []
    ensures AllAccount(outcomes[..|outcomes| - 1], groups[..|groups| - 1])
    ensures outcomes[|groups| - 1].Ok? ==> Accounts(outcomes[|groups| - 1].value, |groups[|groups| - 1].queue|)
    ensures TotalQueued(groups) == TotalQueued(groups[..|groups| - 1]) + |groups[|groups| - 1].queue|
  {}

  /** Without an error the last outcome is a report on top of the others. */
  lemma LastAbsorbed(outcomes: seq<Result<Report, DeliveryError>>)
    requires outcomes != [] && AbsorbAll(outcomes).error.None?
    ensures var front, last := outcomes[..|outcomes| - 1], outcomes[|outcomes| - 1];
            && last.Ok? && AbsorbAll(front).error.None?
            && AbsorbAll(outcomes).report == Absorb(AbsorbAll(front).report, last.value)
  {}

  lemma {:induction false} AllOk(outcomes: seq<Result<Report, DeliveryError>>)
    ensures AbsorbAll(outcomes).error.None? <==> forall i :: 0 <= i < |outcomes| ==> outcomes[i].Ok?
  {
    if outcomes != [] { AllOk(outcomes[..|outcomes| - 1]); }
  }

  lemma {:induction false} QueueWithinTotal(groups: seq<Group>, i: nat)
    requires i < |groups|
    ensures |groups[i].queue| <= TotalQueued(groups)
  {
    if i < |groups| - 1 { QueueWithinTotal(groups[..|groups| - 1], i); }
  }

  /** A successful pass accounts for every claimed event: delivered, rescheduled
      or dead-lettered. */
  lemma PassBalances(groups: seq<Group>, w: World, maxAttempts: nat)
    requires TotalQueued(groups) <= U32_MAX && PassReport(groups, w, maxAttempts).error.None?
    ensures Accounts(PassReport(groups, w, maxAttempts).report, TotalQueued(groups))
  {
    var outcomes := Outcomes(groups, w, maxAttempts);
    forall i | 0 <= i < |groups| && outcomes[i].Ok? ensures Accounts(outcomes[i].value, |groups[i].queue|) {
      QueueWithinTotal(groups, i);
      MerchantBalances(groups[i], w, maxAttempts);
    }
    AbsorbedBalances(outcomes, groups);
  }

  // ----- what a pass does to each row, whatever order the groups run in -----

  /** What becomes of a claimed event, from its own merchant's endpoints. */
  function Fate(e: Event, w: World, maxAttempts: nat): Option<Completion> {
    if e.merchant.None? then FateOf(e, [], w, maxAttempts)
    else
      var endpoints := w.endpoints(e.merchant.value);
      if endpoints.None? then None else FateOf(e, endpoints.value, w, maxAttempts)
  }

  predicate Queued(groups: seq<Group>, id: Id) {
    exists i :: 0 <= i < |groups| && Mentions(groups[i].queue, id)
  }

  lemma MerchantFrame(rows: Rows, g: Group, w: World, maxAttempts: nat)
    ensures var after := MerchantRewrite(rows, g.merchant, g.queue, w, maxAttempts);
            after.Keys == rows.Keys && forall id :: id in rows && !Mentions(g.queue, id) ==> after[id] == rows[id]
  {
    if g.merchant.None? {
      RewriteFrame(rows, g.queue, [], w, maxAttempts);
    } else if w.endpoints(g.merchant.value).Some? {
      RewriteFrame(rows, g.queue, w.endpoints(g.merchant.value).value, w, maxAttempts);
    }
  }

  lemma MerchantCompletes(rows: Rows, g: Group, w: World, maxAttempts: nat, k: nat)
    requires MerchantTally(g.merchant, g.queue, w, maxAttempts).Ok? && Distinct(g.queue)
    requires k < |g.queue| && g.queue[k].merchant == g.merchant && g.queue[k].id in rows
    ensures var e := g.queue[k];
            Fate(e, w, maxAttempts).Some? && e.id in MerchantRewrite(rows, g.merchant, g.queue, w, maxAttempts)
            && MerchantRewrite(rows, g.merchant, g.queue, w, maxAttempts)[e.id] == Complete(rows[e.id], Fate(e, w, maxAttempts).value)
  {
    if g.merchant.None? {
      RewriteCompletes(rows, g.queue, [], w, maxAttempts, k);
    } else {
      RewriteCompletes(rows, g.queue, w.endpoints(g.merchant.value).value, w, maxAttempts, k);
    }
  }

  lemma {:induction false} PassFrame(rows: Rows, groups: seq<Group>, w: World, maxAttempts: nat)
    ensures var after := PassRows(rows, groups, w, maxAttempts);
            after.Keys == rows.Keys && forall id :: id in rows && !Queued(groups, id) ==> after[id] == rows[id]
  {
    if groups != [] {
      var front, g := groups[..|groups| - 1], groups[|groups| - 1];
      PassFrame(rows, front, w, maxAttempts);
      MerchantFrame(PassRows(rows, front, w, maxAttempts), g, w, maxAttempts);
      forall id | Queued(front, id) ensures Queued(groups, id) {
        var i :| 0 <= i < |front| && Mentions(front[i].queue, id);
        assert Mentions(groups[i].queue, id);
      }
    }
  }

  predicate OwnQueue(g: Group) {
    Distinct(g.queue) && forall k :: 0 <= k < |g.queue| ==> g.queue[k].merchant == g.merchant
  }

  /** Each queue is its own merchant's and no event is queued twice. */
  ghost predicate Disjoint(groups: seq<Group>) {
    && (forall i :: 0 <= i < |groups| ==> OwnQueue(groups[i]))
    && (forall i, j, id :: 0 <= i < j < |groups| && Mentions(groups[i].queue, id) ==> !Mentions(groups[j].queue, id))
  }

  /** After a successful pass every queued row has been completed exactly once, by
      its own event's fate: the order of the groups does not show. */
  lemma {:induction false} PassCompletes(rows: Rows, groups: seq<Group>, w: World, maxAttempts: nat, i: nat, k: nat)
    requires Disjoint(groups) && i < |groups| && k < |groups[i].queue| && groups[i].queue[k].id in rows
    requires forall j :: 0 <= j < |groups| ==> MerchantTally(groups[j].merchant, groups[j].queue, w, maxAttempts).Ok?
    ensures var e := groups[i].queue[k];
            Fate(e, w, maxAttempts).Some? && e.id in PassRows(rows, groups, w, maxAttempts)
            && PassRows(rows, groups, w, maxAttempts)[e.id] == Complete(rows[e.id], Fate(e, w, maxAttempts).value)
  {
    var front, g := groups[..|groups| - 1], groups[|groups| - 1];
    var e := groups[i].queue[k];
    var before := PassRows(rows, front, w, maxAttempts);
    PassFrame(rows, front, w, maxAttempts);
    MerchantFrame(before, g, w, maxAttempts);
    assert Mentions(groups[i].queue, e.id);
    if i == |groups| - 1 {
      MerchantCompletes(before, g, w, maxAttempts, k);
    } else {
      assert front[i] == groups[i];
      PassCompletes(rows, front, w, maxAttempts, i, k);
      assert !Mentions(groups[|groups| - 1].queue, e.id);
    }
  }

  lemma {:induction false} FilterDistinct(events: seq<Event>, p: Event -> bool)
    requires Distinct(events)
    ensures Distinct(Filter(events, p))
  {
    if events != [] {
      var rest := Filter(events[1..], p);
      FilterDistinct(events[1..], p);
      forall k | 0 <= k < |rest| ensures rest[k].id != events[0].id {
        FilterMember(events[1..], p, rest[k]);
      }
    }
  }

  lemma SameEvent(events: seq<Event>, a: Event, b: Event)
    requires Distinct(events) && a in events && b in events && a.id == b.id
    ensures a == b
  {}

  lemma GroupedDisjoint(events: seq<Event>)
    requires Distinct(events)
    ensures Disjoint(Grouped(events))
  {
    var groups := Grouped(events);
    GroupedPartitions(events);
    forall i | 0 <= i < |groups| ensures OwnQueue(groups[i]) {
      FilterDistinct(events, Of(groups[i].merchant));
      forall k | 0 <= k < |groups[i].queue| ensures groups[i].queue[k].merchant == groups[i].merchant {
        FilterMember(events, Of(groups[i].merchant), groups[i].queue[k]);
      }
    }
    forall i, j, id | 0 <= i < j < |groups| && Mentions(groups[i].queue, id) ensures !Mentions(groups[j].queue, id) {
      NotInBoth(events, groups[i].merchant, groups[j].merchant, id);
    }
  }

  lemma NotInBoth(events: seq<Event>, m: Option<Id>, n: Option<Id>, id: Id)
    requires Distinct(events) && m != n && Mentions(Filter(events, Of(m)), id)
    ensures !Mentions(Filter(events, Of(n)), id)
  {
    var p, q := Filter(events, Of(m)), Filter(events, Of(n));
    var k :| 0 <= k < |p| && p[k].id == id;
    FilterMember(events, Of(m), p[k]);
    forall l | 0 <= l < |q| ensures q[l].id != id {
      FilterMember(events, Of(n), q[l]);
      if q[l].id == id { SameEvent(events, p[k], q[l]); }
    }
  }

  /** Every claimed event is in some queue. */
  lemma GroupedFinds(events: seq<Event>, e: Event) returns (i: nat, k: nat)
    requires e in events
    ensures i < |Grouped(events)| && k < |Grouped(events)[i].queue| && Grouped(events)[i].queue[k] == e
  {
    GroupedPartitions(events);
    i :| 0 <= i < |Grouped(events)| && Grouped(events)[i].merchant == e.merchant;
    FilterMember(events, Of(e.merchant), e);
    k :| 0 <= k < |Grouped(events)[i].queue| && Grouped(events)[i].queue[k] == e;
  }

  // ----- the service over its table -----

  const MAX_BATCH_LIMIT: nat := 500

  /** A batch as a claim returns it, in no promised order. */
  ghost predicate Batch(events: seq<Event>, rows: Rows, taken: set<Id>) {
    && Distinct(events) && |events| == |taken| && taken <= rows.Keys
    && (forall id :: Mentions(events, id) <==> id in taken)
    && (forall i :: 0 <= i < |events| ==> events[i].id in rows && events[i] == EventOf(events[i].id, rows[events[i].id]))
  }

  lemma BatchGrows(events: seq<Event>, rows: Rows, taken: set<Id>, id: Id)
    requires Batch(events, rows, taken) && id in rows && id !in taken
    ensures Batch(events + [EventOf(id, rows[id])], rows, taken + {id})
  {
    var after := events + [EventOf(id, rows[id])];
    assert !Mentions(events, id);
    forall x ensures Mentions(after, x) <==> x in taken + {id} {
      if Mentions(events, x) {
        var i :| 0 <= i < |events| && events[i].id == x;
        assert after[i].id == x;
      }
      assert after[|events|].id == id;
    }
  }

  /** The share of a longer list stops where a shorter one would. */
  lemma {:induction false} TallyStops(rows: Rows, events: seq<Event>, n: nat, endpoints: seq<Id>, w: World, maxAttempts: nat)
    requires n < |events| && Tally(events[..n], endpoints, w, maxAttempts).Ok?
    requires FateOf(events[n], endpoints, w, maxAttempts).None?
    ensures Tally(events, endpoints, w, maxAttempts) == Err(WorkFailed)
    ensures Rewrite(rows, events, endpoints, w, maxAttempts) == Rewrite(rows, events[..n], endpoints, w, maxAttempts)
    decreases |events|
  {
    var front := events[..|events| - 1];
    if n == |events| - 1 {
      assert front == events[..n];
    } else {
      assert front[..n] == events[..n];
      TallyStops(rows, front, n, endpoints, w, maxAttempts);
    }
  }

  lemma {:induction false} TallyFails(events: seq<Event>, endpoints: seq<Id>, w: World, maxAttempts: nat)
    requires Tally(events, endpoints, w, maxAttempts).Err?
    ensures Tally(events, endpoints, w, maxAttempts) == Err(WorkFailed)
  {
    if events != [] && Tally(events[..|events| - 1], endpoints, w, maxAttempts).Err? {
      TallyFails(events[..|events| - 1], endpoints, w, maxAttempts);
    }
  }

  lemma TallyErrors(g: Group, w: World, maxAttempts: nat)
    requires MerchantTally(g.merchant, g.queue, w, maxAttempts).Err?
    ensures MerchantTally(g.merchant, g.queue, w, maxAttempts) in [Err(WorkFailed), Err(LookupFailed)]
  {
    if g.merchant.None? {
      TallyFails(g.queue, [], w, maxAttempts);
    } else if w.endpoints(g.merchant.value).Some? {
      TallyFails(g.queue, w.endpoints(g.merchant.value).value, w, maxAttempts);
    }
  }

  /** A row after its event was handled; handling releases the claim. */
  function Settled(r: Row, id: Id, w: World, maxAttempts: nat): Row {
    var c := Fate(EventOf(id, r), w, maxAttempts);
    if c.Some? then Complete(r, c.value) else r
  }

  lemma EveryGroupDone(groups: seq<Group>, w: World, maxAttempts: nat)
    requires PassReport(groups, w, maxAttempts).error.None?
    ensures forall j :: 0 <= j < |groups| ==> MerchantTally(groups[j].merchant, groups[j].queue, w, maxAttempts).Ok?
  {
    var outcomes := Outcomes(groups, w, maxAttempts);
    AllOk(outcomes);
    assert forall j :: 0 <= j < |groups| ==> outcomes[j] == MerchantTally(groups[j].merchant, groups[j].queue, w, maxAttempts);
  }

  lemma RowCompletes(before: Rows, claimed: Rows, events: seq<Event>, taken: set<Id>, claim: Claim, w: World, maxAttempts: nat, id: Id)
    requires Batch(events, before, taken) && claimed == ClaimRows(before, taken, claim) && id in taken && Live(before[id])
    requires PassReport(Grouped(events), w, maxAttempts).error.None?
    ensures id in PassRows(claimed, Grouped(events), w, maxAttempts)
    ensures PassRows(claimed, Grouped(events), w, maxAttempts)[id] == Settled(before[id], id, w, maxAttempts)
  {
    assert Mentions(events, id);
    var n :| 0 <= n < |events| && events[n].id == id;
    var i, k := GroupedFinds(events, events[n]);
    GroupedDisjoint(events);
    EveryGroupDone(Grouped(events), w, maxAttempts);
    PassCompletes(claimed, Grouped(events), w, maxAttempts, i, k);
    ClaimIsReleased(before[id], claim, Fate(events[n], w, maxAttempts).value);
  }

  /** Completing a row does not see who claimed it. */
  lemma ClaimIsReleased(r: Row, claim: Claim, c: Completion)
    requires Live(r)
    ensures Complete(r.(claim := Some(claim)), c) == Complete(r, c)
  {}

  lemma OthersStay(before: Rows, claimed: Rows, events: seq<Event>, taken: set<Id>, claim: Claim, w: World, maxAttempts: nat, id: Id)
    requires Batch(events, before, taken) && claimed == ClaimRows(before, taken, claim) && id in before && id !in taken
    ensures id in PassRows(claimed, Grouped(events), w, maxAttempts)
    ensures PassRows(claimed, Grouped(events), w, maxAttempts)[id] == before[id]
  {
    var groups := Grouped(events);
    PassFrame(claimed, groups, w, maxAttempts);
    GroupedPartitions(events);
    assert !Mentions(events, id);
    forall i | 0 <= i < |groups| ensures !Mentions(groups[i].queue, id) {
      forall k | 0 <= k < |groups[i].queue| ensures groups[i].queue[k].id != id {
        FilterMember(events, Of(groups[i].merchant), groups[i].queue[k]);
      }
    }
  }

  lemma BatchCompletes(before: Rows, claimed: Rows, events: seq<Event>, taken: set<Id>, claim: Claim, w: World, maxAttempts: nat)
    requires Batch(events, before, taken) && claimed == ClaimRows(before, taken, claim)
    requires (forall id :: id in taken ==> Live(before[id])) && |taken| <= U32_MAX
    requires PassReport(Grouped(events), w, maxAttempts).error.None?
    ensures var after := PassRows(claimed, Grouped(events), w, maxAttempts);
            && after.Keys == before.Keys
            && (forall id :: id in before ==>
                  after[id] == if id in taken then Settled(before[id], id, w, maxAttempts) else before[id])
    ensures Accounts(PassReport(Grouped(events), w, maxAttempts).report, |taken|)
  {
    PassFrame(claimed, Grouped(events), w, maxAttempts);
    forall id | id in before
      ensures id in PassRows(claimed, Grouped(events), w, maxAttempts)
              && PassRows(claimed, Grouped(events), w, maxAttempts)[id]
                 == if id in taken then Settled(before[id], id, w, maxAttempts) else before[id]
    {
      if id in taken {
        RowCompletes(before, claimed, events, taken, claim, w, maxAttempts, id);
      } else {
        OthersStay(before, claimed, events, taken, claim, w, maxAttempts, id);
      }
    }
    GroupedKeepsAll(events);
    PassBalances(Grouped(events), w, maxAttempts);
  }

  /** A pass that started never reports a bad batch limit. */
  lemma PassErrors(groups: seq<Group>, w: World, maxAttempts: nat)
    ensures PassReport(groups, w, maxAttempts).error in [None, Some(WorkFailed), Some(LookupFailed)]
  {
    var outcomes := Outcomes(groups, w, maxAttempts);
    forall i | 0 <= i < |outcomes| && outcomes[i].Err? ensures outcomes[i].error in [WorkFailed, LookupFailed] {
      TallyErrors(groups[i], w, maxAttempts);
    }
    KeepsFirstError(outcomes);
  }

  predicate FirstError(outcomes: seq<Result<Report, DeliveryError>>, i: nat, error: DeliveryError) {
    i < |outcomes| && outcomes[i] == Err(error) && forall j :: 0 <= j < i ==> outcomes[j].Ok?
  }

  lemma {:induction false} KeepsFirstError(outcomes: seq<Result<Report, DeliveryError>>)
    ensures AbsorbAll(outcomes).error.Some? ==> exists i :: FirstError(outcomes, i, AbsorbAll(outcomes).error.value)
  {
    if outcomes != [] {
      var front := outcomes[..|outcomes| - 1];
      KeepsFirstError(front);
      AllOk(front);
      if AbsorbAll(front).error.Some? {
        var i :| FirstError(front, i, AbsorbAll(front).error.value);
        assert FirstError(outcomes, i, AbsorbAll(front).error.value);
      } else if outcomes[|front|].Err? {
        assert FirstError(outcomes, |front|, outcomes[|front|].error);
      }
    }
  }

  method AbsorbOutcomes(outcomes: seq<Result<Report, DeliveryError>>) returns (report: Report, firstError: Option<DeliveryError>)
    ensures Passed(report, firstError) == AbsorbAll(outcomes)
  {
    report, firstError := NOTHING, None;
    for n := 0 to |outcomes|
      invariant Passed(report, firstError) == AbsorbAll(outcomes[..n])
    {
      assert outcomes[..n + 1][..n] == outcomes[..n];
      match outcomes[n] {
        case Ok(part) => report := Absorb(report, part);
        case Err(error) => if firstError.None? { firstError := Some(error); }
      }
    }
    assert outcomes[..|outcomes|] == outcomes;
  }

  /** The rows a statement returns, in whatever order it finds them. */
  method ListBatch(rows: Rows, taken: set<Id>) returns (events: seq<Event>)
    requires taken <= rows.Keys
    ensures Batch(events, rows, taken)
  {
    var todo, done := taken, {};
    events := [];
    while todo != {}
      invariant todo + done == taken && todo !! done
      invariant Batch(events, rows, done)
      decreases |todo|
    {
      var id :| id in todo;
      BatchGrows(events, rows, done, id);
      events := events + [EventOf(id, rows[id])];
      todo, done := todo - {id}, done + {id};
    }
  }

  method GroupByMerchant(events: seq<Event>) returns (groups: seq<Group>)
    ensures groups == Grouped(events)
  {
    groups := [];
    for n := 0 to |events|
      invariant groups == Grouped(events[..n])
    {
      assert events[..n + 1][..n] == events[..n];
      var e := events[n];
      var p := SlotOf(groups, e.merchant);
      if p < |groups| {
        groups := groups[p := Group(e.merchant, groups[p].queue + [e])];
      } else {
        groups := groups + [Group(e.merchant, [e])];
      }
    }
    assert events[..|events|] == events;
  }
}
