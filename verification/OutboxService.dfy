/** The delivery service over its table: claim, deliver, count
    (crates/gateway-application/src/outbox.rs, crates/gateway-storage/src/outbox.rs). */
module OutboxService {
  import opened Clock
  import opened Common
  import opened OutboxRows
  import opened OutboxRuns
  import opened OutboxDelivery
  import opened OutboxOutcome

  class Outbox {
    var rows: Rows

    /** `claim_due_events`. */
    method ClaimDueEvents(holder: string, limit: nat, perMerchant: nat, now: Instant)
      returns (r: Result<seq<Event>, DeliveryError>)
      modifies this
      ensures r.Err? <==> CheckedLater(now, VISIBILITY_SECONDS).None?
      ensures r.Err? ==> r.error == WindowOverflow && rows == old(rows)
      ensures r.Ok? ==>
                && Batch(r.value, old(rows), Chosen(old(rows), now, limit, perMerchant))
                && rows == ClaimRows(old(rows), Chosen(old(rows), now, limit, perMerchant),
                                     Claim(holder, CheckedLater(now, VISIBILITY_SECONDS).value))
    {
      var until := CheckedLater(now, VISIBILITY_SECONDS);
      if until.None? {
        return Err(WindowOverflow);
      }
      var taken := Chosen(rows, now, limit, perMerchant);
      var events := ListBatch(rows, taken);
      rows := ClaimRows(rows, taken, Claim(holder, until.value));
      return Ok(events);
    }

    /** `deliver_merchant`, with the counters it keeps. */
    method DeliverMerchant(merchant: Option<Id>, events: seq<Event>, w: World, maxAttempts: nat)
      returns (r: Result<Report, DeliveryError>)
      modifies this
      ensures r == MerchantTally(merchant, events, w, maxAttempts)
      ensures rows == MerchantRewrite(old(rows), merchant, events, w, maxAttempts)
    {
      var endpoints := [];
      if merchant.Some? {
        var found := w.endpoints(merchant.value);
        if found.None? {
          return Err(LookupFailed);
        }
        endpoints := found.value;
      }
      var report := NOTHING;
      for n := 0 to |events|
        invariant Ok(report) == Tally(events[..n], endpoints, w, maxAttempts)
        invariant rows == Rewrite(old(rows), events[..n], endpoints, w, maxAttempts)
      {
        var e := events[n];
        assert events[..n + 1][..n] == events[..n];
        var c := FateOf(e, endpoints, w, maxAttempts);
        if c.None? {
          TallyStops(old(rows), events, n, endpoints, w, maxAttempts);
          return Err(WorkFailed);
        }
        rows := CompleteRow(rows, e.id, c.value);
        report := Count(report, c.value, Missing(e, endpoints));
      }
      assert events[..|events|] == events;
      return Ok(report);
    }

    /** Runs every group; outcomes come back in the order of the groups. */
    method DeliverGroups(groups: seq<Group>, w: World, maxAttempts: nat) returns (outcomes: seq<Result<Report, DeliveryError>>)
      modifies this
      ensures outcomes == Outcomes(groups, w, maxAttempts)
      ensures rows == PassRows(old(rows), groups, w, maxAttempts)
    {
      outcomes := [];
      for n := 0 to |groups|
        invariant |outcomes| == n
        invariant forall i :: 0 <= i < n ==> outcomes[i] == MerchantTally(groups[i].merchant, groups[i].queue, w, maxAttempts)
        invariant rows == PassRows(old(rows), groups[..n], w, maxAttempts)
      {
        assert groups[..n + 1][..n] == groups[..n];
        var outcome := DeliverMerchant(groups[n].merchant, groups[n].queue, w, maxAttempts);
        outcomes := outcomes + [outcome];
      }
      assert groups[..|groups|] == groups;
    }

    /** `deliver_due`: one pass, counted or reported as its first error. */
    method DeliverDue(holder: string, limit: nat, perMerchant: nat, w: World, maxAttempts: nat, now: Instant)
      returns (r: Result<Report, DeliveryError>)
      modifies this
      ensures limit == 0 || limit > MAX_BATCH_LIMIT <==> r == Err(InvalidBatchLimit)
      ensures rows.Keys == old(rows).Keys
      ensures r.Ok? ==> Balanced(r.value) && ReportSays(r.value, old(rows), Chosen(old(rows), now, limit, perMerchant), w, maxAttempts)
      ensures r.Ok? ==> forall id :: id in rows ==>
                if id in Chosen(old(rows), now, limit, perMerchant)
                then RowSays(old(rows)[id], rows[id], id, w, maxAttempts) else rows[id] == old(rows)[id]
    {
      if limit == 0 || limit > MAX_BATCH_LIMIT {
        return Err(InvalidBatchLimit);
      }
      var events := ClaimDueEvents(holder, limit, perMerchant, now);
      if events.Err? {
        return Err(events.error);
      }
      ghost var claimed := rows;
      var groups := GroupByMerchant(events.value);
      var outcomes := DeliverGroups(groups, w, maxAttempts);
      var report, firstError := AbsorbOutcomes(outcomes);
      PassFrame(claimed, groups, w, maxAttempts);
      if firstError.Some? {
        PassErrors(groups, w, maxAttempts);
        return Err(firstError.value);
      }
      ClaimIsFair(old(rows), now, limit, perMerchant);
      ghost var taken, claim := Chosen(old(rows), now, limit, perMerchant), Claim(holder, CheckedLater(now, VISIBILITY_SECONDS).value);
      BatchCompletes(old(rows), claimed, events.value, taken, claim, w, maxAttempts);
      PassSays(old(rows), claimed, events.value, taken, claim, w, maxAttempts);
      return Ok(report);
    }
  }
}
