/** What a delivery pass does, said of the rows and the report themselves: which
    events are delivered, retried and given up, and how many of each
    (crates/gateway-application/src/outbox.rs). */
module OutboxOutcome {
  import opened Clock
  import opened Common
  import opened Money
  import opened OutboxRows
  import opened OutboxRuns
  import opened OutboxDelivery
  import opened OutboxInterleaving

  // ----- one row -----

  /** Somebody is there to hear: the target of the event among its merchant's active
      endpoints, or any of them when it has no target. */
  predicate Heard(r: Row, w: World) {
    && r.merchant.Some? && w.endpoints(r.merchant.value).Some?
    && var active := w.endpoints(r.merchant.value).value; if r.target.Some? then r.target.value in active else active != []
  }

  /** It has a merchant, and the merchant is not listening. */
  predicate Ignored(r: Row, w: World) { r.merchant.Some? && !Heard(r, w) }

  predicate Delivers(r: Row, id: Id, w: World) { Heard(r, w) && w.answers(id).Accepted? }

  /** Nobody to send to, or the last attempt failed. */
  predicate GivesUp(r: Row, id: Id, w: World, maxAttempts: nat) {
    !Heard(r, w) || (!w.answers(id).Accepted? && r.attempts - r.floor + 1 >= maxAttempts)
  }

  predicate TriesAgain(r: Row, id: Id, w: World, maxAttempts: nat) {
    Heard(r, w) && !w.answers(id).Accepted? && r.attempts - r.floor + 1 < maxAttempts
  }

  function Reason(r: Row, id: Id, w: World, maxAttempts: nat): Option<string> {
    if Delivers(r, id, w) then None
    else if TriesAgain(r, id, w, maxAttempts) then Some("delivery_failed")
    else if Heard(r, w) then Some("delivery_attempts_exhausted")
    else if r.merchant.None? then Some("webhook_event_without_merchant")
    else if r.target.Some? then Some("redelivery_target_inactive")
    else Some("no_active_endpoint")
  }

  /** A handled row: one more attempt, no claim, and exactly one of delivered, dead
      and available again after the backoff. */
  predicate RowSays(before: Row, after: Row, id: Id, w: World, maxAttempts: nat) {
    && after.merchant == before.merchant && after.target == before.target && after.floor == before.floor
    && after.attempts == before.attempts + 1 && after.claim.None?
    && after.deliveredAt == (if Delivers(before, id, w) then Some(w.at(id)) else None)
    && after.deadAt == (if GivesUp(before, id, w, maxAttempts) then Some(w.at(id)) else None)
    && after.availableAt == (if TriesAgain(before, id, w, maxAttempts)
                             then w.at(id) + Nanos(Backoff(before.attempts - before.floor + 1)) else before.availableAt)
    && after.lastError == Reason(before, id, w, maxAttempts)
  }

  /** Exactly when an event's work fails before it can be completed. */
  lemma FateFails(r: Row, id: Id, w: World, maxAttempts: nat)
    ensures Fate(EventOf(id, r), w, maxAttempts).None? <==>
            || (r.merchant.Some? && w.endpoints(r.merchant.value).None?) || w.answers(id).Fault?
            || (TriesAgain(r, id, w, maxAttempts) && !OnCalendar(w.at(id) + Nanos(Backoff(r.attempts - r.floor + 1))))
  {}

  /** One merchant's share, whether or not it fails: the row of an event is handled
      exactly when neither its own work nor that of an earlier one fails. */
  lemma ShareSays(rows: Rows, g: Group, w: World, maxAttempts: nat, k: nat)
    requires OwnQueue(g) && k < |g.queue| && g.queue[k].id in rows && Live(rows[g.queue[k].id])
    requires g.queue[k] == EventOf(g.queue[k].id, rows[g.queue[k].id])
    ensures var after, id := MerchantRewrite(rows, g.merchant, g.queue, w, maxAttempts), g.queue[k].id;
            && id in after
            && if (forall j :: 0 <= j <= k ==> Fate(g.queue[j], w, maxAttempts).Some?)
               then RowSays(rows[id], after[id], id, w, maxAttempts) else after[id] == rows[id]
  {
    MerchantRow(rows, g, w, maxAttempts, k);
    var jobs, id := JobsOf(g.queue, w, maxAttempts), g.queue[k].id;
    if forall j :: 0 <= j <= k ==> Fate(g.queue[j], w, maxAttempts).Some? {
      assert forall j :: 0 <= j <= k ==> jobs[j].fate.Some?;
      SettledSays(rows[id], id, w, maxAttempts);
    } else {
      var j :| 0 <= j <= k && Fate(g.queue[j], w, maxAttempts).None?;
      assert jobs[j].fate.None?;
    }
  }

  lemma SettledSays(r: Row, id: Id, w: World, maxAttempts: nat)
    requires Live(r) && Fate(EventOf(id, r), w, maxAttempts).Some?
    ensures RowSays(r, Settled(r, id, w, maxAttempts), id, w, maxAttempts)
  {}

  // ----- counting events -----

  function Sent(w: World, maxAttempts: nat): Event -> bool {
    (e: Event) => Fate(e, w, maxAttempts).Some? && Fate(e, w, maxAttempts).value.Deliver?
  }

  function Again(w: World, maxAttempts: nat): Event -> bool {
    (e: Event) => Fate(e, w, maxAttempts).Some? && Fate(e, w, maxAttempts).value.Retry?
  }

  function Dead(w: World, maxAttempts: nat): Event -> bool {
    (e: Event) => Fate(e, w, maxAttempts).Some? && Fate(e, w, maxAttempts).value.Bury?
  }

  function Unheard(w: World): Event -> bool {
    (e: Event) => e.merchant.Some? && w.endpoints(e.merchant.value).Some? && !Listening(e, w.endpoints(e.merchant.value).value)
  }

  predicate Counts(r: Report, events: seq<Event>, w: World, maxAttempts: nat) {
    && r.claimed == |events|
    && r.delivered == |Filter(events, Sent(w, maxAttempts))|
    && r.rescheduled == |Filter(events, Again(w, maxAttempts))|
    && r.deadLettered == |Filter(events, Dead(w, maxAttempts))|
    && r.endpointsMissing == |Filter(events, Unheard(w))|
  }

  lemma FilterSnoc<T(!new)>(s: seq<T>, x: T, p: T -> bool)
    ensures |Filter(s + [x], p)| == |Filter(s, p)| + if p(x) then 1 else 0
  {
    FilterConcat(s, [x], p);
  }

  lemma CountOne(r: Report, events: seq<Event>, e: Event, w: World, maxAttempts: nat)
    requires Counts(r, events, w, maxAttempts) && |events| < U32_MAX && Fate(e, w, maxAttempts).Some?
    ensures Counts(Count(r, Fate(e, w, maxAttempts).value, Unheard(w)(e)), events + [e], w, maxAttempts)
  {
    FilterSnoc(events, e, Sent(w, maxAttempts));
    FilterSnoc(events, e, Again(w, maxAttempts));
    FilterSnoc(events, e, Dead(w, maxAttempts));
    FilterSnoc(events, e, Unheard(w));
  }

  /** The events are handled with these endpoints. */
  ghost predicate Served(events: seq<Event>, endpoints: seq<Id>, w: World, maxAttempts: nat) {
    forall e :: e in events ==>
      FateOf(e, endpoints, w, maxAttempts) == Fate(e, w, maxAttempts) && Missing(e, endpoints) == Unheard(w)(e)
  }

  lemma {:induction false} TallyCounts(events: seq<Event>, endpoints: seq<Id>, w: World, maxAttempts: nat)
    requires |events| <= U32_MAX && Served(events, endpoints, w, maxAttempts) && Tally(events, endpoints, w, maxAttempts).Ok?
    ensures Counts(Tally(events, endpoints, w, maxAttempts).value, events, w, maxAttempts)
  {
    if events == [] {
      assert Tally(events, endpoints, w, maxAttempts).value == NOTHING;
    } else {
      var front, last := events[..|events| - 1], events[|events| - 1];
      assert events == front + [last] && last in events;
      TallyCounts(front, endpoints, w, maxAttempts);
      CountOne(Tally(front, endpoints, w, maxAttempts).value, front, last, w, maxAttempts);
    }
  }

  lemma MerchantCounts(g: Group, w: World, maxAttempts: nat)
    requires OwnQueue(g) && |g.queue| <= U32_MAX && MerchantTally(g.merchant, g.queue, w, maxAttempts).Ok?
    ensures Counts(MerchantTally(g.merchant, g.queue, w, maxAttempts).value, g.queue, w, maxAttempts)
  {
    if g.merchant.None? {
      assert Served(g.queue, [], w, maxAttempts);
      TallyCounts(g.queue, [], w, maxAttempts);
    } else {
      var endpoints := w.endpoints(g.merchant.value).value;
      assert Served(g.queue, endpoints, w, maxAttempts);
      TallyCounts(g.queue, endpoints, w, maxAttempts);
    }
  }

  // ----- all merchants together -----

  /** Every queue, one after the other. */
  function Flat(groups: seq<Group>): seq<Event> {
    if groups == [] then [] else Flat(groups[..|groups| - 1]) + groups[|groups| - 1].queue
  }

  lemma FlatSnoc(front: seq<Group>, last: Group)
    ensures multiset(Flat(front + [last])) == multiset(Flat(front)) + multiset(last.queue)
  {
    assert (front + [last])[..|front|] == front;
  }

  lemma {:induction false} FlatUpdated(groups: seq<Group>, p: nat, e: Event)
    requires p < |groups|
    ensures multiset(Flat(groups[p := Group(e.merchant, groups[p].queue + [e])])) == multiset(Flat(groups)) + multiset{e}
  {
    var g := Group(e.merchant, groups[p].queue + [e]);
    var front, last := groups[..|groups| - 1], groups[|groups| - 1];
    assert groups == front + [last];
    FlatSnoc(front, last);
    if p == |front| {
      assert groups[p := g] == front + [g];
      FlatSnoc(front, g);
    } else {
      FlatUpdated(front, p, e);
      assert groups[p := g] == front[p := g] + [last];
      FlatSnoc(front[p := g], last);
    }
  }

  /** The queues hold exactly the claimed events. */
  lemma {:induction false} GroupedIsFlat(events: seq<Event>)
    ensures multiset(Flat(Grouped(events))) == multiset(events)
  {
    if events != [] {
      var front, last := events[..|events| - 1], events[|events| - 1];
      assert events == front + [last];
      GroupedIsFlat(front);
      var groups := Grouped(front);
      var p := SlotOf(groups, last.merchant);
      if p < |groups| {
        FlatUpdated(groups, p, last);
      } else {
        assert (groups + [Group(last.merchant, [last])])[..|groups|] == groups;
      }
    }
  }

  lemma AbsorbCounts(a: Report, b: Report, s: seq<Event>, t: seq<Event>, w: World, maxAttempts: nat)
    requires Counts(a, s, w, maxAttempts) && Counts(b, t, w, maxAttempts) && |s| + |t| <= U32_MAX
    ensures Counts(Absorb(a, b), s + t, w, maxAttempts)
  {
    FilterConcat(s, t, Sent(w, maxAttempts));
    FilterConcat(s, t, Again(w, maxAttempts));
    FilterConcat(s, t, Dead(w, maxAttempts));
    FilterConcat(s, t, Unheard(w));
  }

  ghost predicate AllCount(outcomes: seq<Result<Report, DeliveryError>>, groups: seq<Group>, w: World, maxAttempts: nat) {
    && |outcomes| == |groups|
    && forall i :: 0 <= i < |groups| && outcomes[i].Ok? ==> Counts(outcomes[i].value, groups[i].queue, w, maxAttempts)
  }

  lemma {:induction false} AbsorbedCounts(outcomes: seq<Result<Report, DeliveryError>>, groups: seq<Group>, w: World, maxAttempts: nat)
    requires AllCount(outcomes, groups, w, maxAttempts) && |Flat(groups)| <= U32_MAX && AbsorbAll(outcomes).error.None?
    ensures Counts(AbsorbAll(outcomes).report, Flat(groups), w, maxAttempts)
  {
    if groups == [] {
      assert AbsorbAll(outcomes).report == NOTHING;
    } else {
      var front, early := outcomes[..|outcomes| - 1], groups[..|groups| - 1];
      LastAbsorbed(outcomes);
      assert AllCount(front, early, w, maxAttempts);
      AbsorbedCounts(front, early, w, maxAttempts);
      AbsorbCounts(AbsorbAll(front).report, outcomes[|early|].value, Flat(early), groups[|early|].queue, w, maxAttempts);
    }
  }

  lemma SameCounts(r: Report, s: seq<Event>, t: seq<Event>, w: World, maxAttempts: nat)
    requires Counts(r, s, w, maxAttempts) && multiset(s) == multiset(t)
    ensures Counts(r, t, w, maxAttempts)
  {
    SameLength(s, t);
    SameFiltered(s, t, Sent(w, maxAttempts));
    SameFiltered(s, t, Again(w, maxAttempts));
    SameFiltered(s, t, Dead(w, maxAttempts));
    SameFiltered(s, t, Unheard(w));
  }

  lemma SameLength<T>(s: seq<T>, t: seq<T>)
    requires multiset(s) == multiset(t)
    ensures |s| == |t|
  {
    assert |multiset(s)| == |s| && |multiset(t)| == |t|;
  }

  lemma SameFiltered<T(!new)>(s: seq<T>, t: seq<T>, p: T -> bool)
    requires multiset(s) == multiset(t)
    ensures |Filter(s, p)| == |Filter(t, p)|
  {
    FilterPermutes(s, t, p);
    SameLength(Filter(s, p), Filter(t, p));
  }

  lemma {:induction false} QueueWithinFlat(groups: seq<Group>, i: nat)
    requires i < |groups|
    ensures |groups[i].queue| <= |Flat(groups)|
  {
    if i < |groups| - 1 { QueueWithinFlat(groups[..|groups| - 1], i); }
  }

  /** No merchant's share of the pass failed. */
  ghost predicate Smooth(events: seq<Event>, w: World, maxAttempts: nat) {
    PassReport(Grouped(events), w, maxAttempts).error.None?
  }

  lemma {:induction false} PassCounts(events: seq<Event>, w: World, maxAttempts: nat)
    requires Distinct(events) && |events| <= U32_MAX && Smooth(events, w, maxAttempts)
    ensures Counts(PassReport(Grouped(events), w, maxAttempts).report, events, w, maxAttempts)
  {
    var groups, outcomes := Grouped(events), Outcomes(Grouped(events), w, maxAttempts);
    GroupedIsFlat(events);
    SameLength(Flat(groups), events);
    GroupedDisjoint(events);
    forall i | 0 <= i < |groups| && outcomes[i].Ok? ensures Counts(outcomes[i].value, groups[i].queue, w, maxAttempts) {
      QueueWithinFlat(groups, i);
      assert OwnQueue(groups[i]);
      MerchantCounts(groups[i], w, maxAttempts);
    }
    AbsorbedCounts(outcomes, groups, w, maxAttempts);
    SameCounts(AbsorbAll(outcomes).report, Flat(groups), events, w, maxAttempts);
  }

  // ----- the report in terms of the rows -----

  /** As many filtered events as rows of which the same is true. */
  lemma CountedRows(events: seq<Event>, rows: Rows, taken: set<Id>, p: Event -> bool, some: set<Id>)
    requires Batch(events, rows, taken)
    requires forall id :: id in some <==> id in taken && p(EventOf(id, rows[id]))
    ensures |Filter(events, p)| == |some|
  {
    var own := Filter(events, p);
    var ids := seq(|own|, i requires 0 <= i < |own| => own[i].id);
    FilterDistinct(events, p);
    CountDistinct(ids);
    forall id ensures id in ids <==> id in some {
      if id in ids {
        var i :| 0 <= i < |ids| && ids[i] == id;
        FilterMember(events, p, own[i]);
        assert Mentions(events, id);
      }
      if id in some {
        assert Mentions(events, id);
        var i :| 0 <= i < |events| && events[i].id == id;
        FilterMember(events, p, events[i]);
        var k :| 0 <= k < |own| && own[k] == events[i];
        assert ids[k] == id;
      }
    }
    assert Members(ids) == some;
  }

  ghost function DeliveredSet(rows: Rows, taken: set<Id>, w: World): set<Id>
    requires taken <= rows.Keys
  {
    set id | id in taken && Delivers(rows[id], id, w)
  }

  ghost function RetriedSet(rows: Rows, taken: set<Id>, w: World, maxAttempts: nat): set<Id>
    requires taken <= rows.Keys
  {
    set id | id in taken && TriesAgain(rows[id], id, w, maxAttempts)
  }

  ghost function BuriedSet(rows: Rows, taken: set<Id>, w: World, maxAttempts: nat): set<Id>
    requires taken <= rows.Keys
  {
    set id | id in taken && GivesUp(rows[id], id, w, maxAttempts)
  }

  ghost function IgnoredSet(rows: Rows, taken: set<Id>, w: World): set<Id>
    requires taken <= rows.Keys
  {
    set id | id in taken && Ignored(rows[id], w)
  }

  /** The counters of a pass over the rows `taken`. */
  ghost predicate ReportSays(r: Report, rows: Rows, taken: set<Id>, w: World, maxAttempts: nat)
    requires taken <= rows.Keys
  {
    && r.claimed == |taken|
    && r.delivered == |DeliveredSet(rows, taken, w)|
    && r.rescheduled == |RetriedSet(rows, taken, w, maxAttempts)|
    && r.deadLettered == |BuriedSet(rows, taken, w, maxAttempts)|
    && r.endpointsMissing == |IgnoredSet(rows, taken, w)|
  }

  /** Once every event's work went through, its fate is what the row says. */
  lemma FateSays(r: Row, id: Id, w: World, maxAttempts: nat)
    requires Fate(EventOf(id, r), w, maxAttempts).Some?
    ensures var e := EventOf(id, r);
            && (Sent(w, maxAttempts)(e) <==> Delivers(r, id, w))
            && (Again(w, maxAttempts)(e) <==> TriesAgain(r, id, w, maxAttempts))
            && (Dead(w, maxAttempts)(e) <==> GivesUp(r, id, w, maxAttempts))
            && (Unheard(w)(e) <==> Ignored(r, w))
  {}

  /** Every event of the batch went through. */
  ghost predicate Fated(rows: Rows, taken: set<Id>, w: World, maxAttempts: nat) {
    taken <= rows.Keys && forall id :: id in taken ==> Fate(EventOf(id, rows[id]), w, maxAttempts).Some?
  }

  lemma DeliveredRows(events: seq<Event>, rows: Rows, taken: set<Id>, w: World, maxAttempts: nat)
    requires Batch(events, rows, taken) && Fated(rows, taken, w, maxAttempts)
    ensures |Filter(events, Sent(w, maxAttempts))| == |DeliveredSet(rows, taken, w)|
  {
    var some := DeliveredSet(rows, taken, w);
    forall id | id in taken ensures Sent(w, maxAttempts)(EventOf(id, rows[id])) <==> id in some { FateSays(rows[id], id, w, maxAttempts); }
    CountedRows(events, rows, taken, Sent(w, maxAttempts), some);
  }

  lemma RetriedRows(events: seq<Event>, rows: Rows, taken: set<Id>, w: World, maxAttempts: nat)
    requires Batch(events, rows, taken) && Fated(rows, taken, w, maxAttempts)
    ensures |Filter(events, Again(w, maxAttempts))| == |RetriedSet(rows, taken, w, maxAttempts)|
  {
    var some := RetriedSet(rows, taken, w, maxAttempts);
    forall id | id in taken ensures Again(w, maxAttempts)(EventOf(id, rows[id])) <==> id in some { FateSays(rows[id], id, w, maxAttempts); }
    CountedRows(events, rows, taken, Again(w, maxAttempts), some);
  }

  lemma BuriedRows(events: seq<Event>, rows: Rows, taken: set<Id>, w: World, maxAttempts: nat)
    requires Batch(events, rows, taken) && Fated(rows, taken, w, maxAttempts)
    ensures |Filter(events, Dead(w, maxAttempts))| == |BuriedSet(rows, taken, w, maxAttempts)|
  {
    var some := BuriedSet(rows, taken, w, maxAttempts);
    forall id | id in taken ensures Dead(w, maxAttempts)(EventOf(id, rows[id])) <==> id in some { FateSays(rows[id], id, w, maxAttempts); }
    CountedRows(events, rows, taken, Dead(w, maxAttempts), some);
  }

  lemma IgnoredRows(events: seq<Event>, rows: Rows, taken: set<Id>, w: World, maxAttempts: nat)
    requires Batch(events, rows, taken) && Fated(rows, taken, w, maxAttempts)
    ensures |Filter(events, Unheard(w))| == |IgnoredSet(rows, taken, w)|
  {
    var some := IgnoredSet(rows, taken, w);
    forall id | id in taken ensures Unheard(w)(EventOf(id, rows[id])) <==> id in some { FateSays(rows[id], id, w, maxAttempts); }
    CountedRows(events, rows, taken, Unheard(w), some);
  }

  lemma CountsAreRows(r: Report, events: seq<Event>, rows: Rows, taken: set<Id>, w: World, maxAttempts: nat)
    requires Batch(events, rows, taken) && Counts(r, events, w, maxAttempts) && Fated(rows, taken, w, maxAttempts)
    ensures ReportSays(r, rows, taken, w, maxAttempts)
  {
    DeliveredRows(events, rows, taken, w, maxAttempts);
    RetriedRows(events, rows, taken, w, maxAttempts);
    BuriedRows(events, rows, taken, w, maxAttempts);
    IgnoredRows(events, rows, taken, w, maxAttempts);
  }

  lemma EveryFate(events: seq<Event>, rows: Rows, taken: set<Id>, w: World, maxAttempts: nat, id: Id)
    requires Batch(events, rows, taken) && id in taken && PassReport(Grouped(events), w, maxAttempts).error.None?
    ensures Fate(EventOf(id, rows[id]), w, maxAttempts).Some?
  {
    assert Mentions(events, id);
    var n :| 0 <= n < |events| && events[n].id == id;
    var i, k := GroupedFinds(events, events[n]);
    GroupedDisjoint(events);
    EveryGroupDone(Grouped(events), w, maxAttempts);
    PassCompletes(rows, Grouped(events), w, maxAttempts, i, k);
  }

  /** A pass without an error over the rows `taken`: what the report counts and what
      becomes of each row follow from the rows, the endpoints and the answers. */
  lemma PassSays(before: Rows, claimed: Rows, events: seq<Event>, taken: set<Id>, claim: Claim, w: World, maxAttempts: nat)
    requires Batch(events, before, taken) && claimed == ClaimRows(before, taken, claim)
    requires (forall id :: id in taken ==> Live(before[id])) && |taken| <= U32_MAX
    requires PassReport(Grouped(events), w, maxAttempts).error.None?
    ensures var after := PassRows(claimed, Grouped(events), w, maxAttempts);
            && after.Keys == before.Keys
            && (forall id :: id in before ==>
                  if id in taken then RowSays(before[id], after[id], id, w, maxAttempts) else after[id] == before[id])
    ensures ReportSays(PassReport(Grouped(events), w, maxAttempts).report, before, taken, w, maxAttempts)
  {
    BatchCompletes(before, claimed, events, taken, claim, w, maxAttempts);
    forall id | id in taken ensures Fate(EventOf(id, before[id]), w, maxAttempts).Some? {
      EveryFate(events, before, taken, w, maxAttempts, id);
    }
    forall id | id in taken ensures RowSays(before[id], Settled(before[id], id, w, maxAttempts), id, w, maxAttempts) {
      SettledSays(before[id], id, w, maxAttempts);
    }
    PassCounts(events, w, maxAttempts);
    CountsAreRows(PassReport(Grouped(events), w, maxAttempts).report, events, before, taken, w, maxAttempts);
  }
}
