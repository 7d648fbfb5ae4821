/** Component leases with fence tokens, and the observation batches and cursors
    they guard (crates/gateway-storage/src/observations.rs). Every transaction is
    one atomic step; each caller brings its own clock reading, which nothing
    relates to any other. */
module Lease {
  import opened Clock
  import opened Common
  import Money

  datatype LeaseRow = LeaseRow(holder: string, token: nat, until: Instant)

  /** What a holder walks away with (`ComponentLease`). */
  datatype Grant = Grant(component: string, holder: string, token: nat, until: Instant)

  datatype RepositoryError = LeaseLost | Corrupt | Unavailable

  // ----- acquiring -----

  /** `acquire_component_lease`: insert, renew, or take over an expired lease.
      Renewal keeps the token, a takeover increments it. */
  function Acquire(leases: map<string, LeaseRow>, component: string, holder: string, ttl: int, now: Instant)
    : (r: (map<string, LeaseRow>, Result<Option<Grant>, RepositoryError>))
  {
    if ttl <= 0 || CheckedLater(now, ttl).None? then (leases, Err(Corrupt))
    else
      var until := CheckedLater(now, ttl).value;
      if component !in leases then
        (leases[component := LeaseRow(holder, 1, until)], Ok(Some(Grant(component, holder, 1, until))))
      else
        var row := leases[component];
        if row.holder == holder || row.until < now then
          var token := if row.holder == holder then row.token else row.token + 1;
          (leases[component := LeaseRow(holder, token, until)], Ok(Some(Grant(component, holder, token, until))))
        else (leases, Ok(None))
  }

  predicate ValidTerm(ttl: int, now: Instant) { ttl > 0 && OnCalendar(now + Nanos(ttl)) }

  /** Nobody has the component, the asker has it already, or its lease ran out. */
  predicate Available(leases: map<string, LeaseRow>, component: string, holder: string, now: Instant) {
    component in leases ==> leases[component].holder == holder || leases[component].until < now
  }

  /** Exactly who is let in, and with what: the asker's name, the asked term, and a
      token that is the first, the old one on renewal, or one more on takeover. */
  lemma AcquireExactly(leases: map<string, LeaseRow>, component: string, holder: string, ttl: int, now: Instant)
    ensures var (after, r) := Acquire(leases, component, holder, ttl, now);
            && (r.Err? <==> !ValidTerm(ttl, now)) && (r.Err? ==> r.error == Corrupt)
            && (r.Ok? ==> (r.value.Some? <==> Available(leases, component, holder, now)))
            && (r.Err? || r.value.None? ==> after == leases)
            && (r.Ok? && r.value.Some? ==>
                  && component in after && after == leases[component := after[component]]
                  && after[component].holder == holder && after[component].until == now + Nanos(ttl)
                  && r.value.value == Grant(component, holder, after[component].token, now + Nanos(ttl))
                  && after[component].token ==
                     if component !in leases then 1
                     else if leases[component].holder == holder then leases[component].token else leases[component].token + 1)
  {}

  /** `hold_lease` inside a writing transaction, at the database's clock. */
  predicate Holds(leases: map<string, LeaseRow>, g: Grant, databaseNow: Instant) {
    && g.component in leases
    && leases[g.component].holder == g.holder && leases[g.component].token == g.token
    && leases[g.component].until > databaseNow
  }

  // ----- cursors -----

  datatype CursorKind = Block | LogicalTime | EventPosition

  /** Where a lane resumes, and the token it was written under. */
  datatype Position = Position(kind: CursorKind, value: string, token: nat)

  predicate IsNumeric(k: CursorKind) { !k.EventPosition? }

  /** One lane per source, observation kind and collector. */
  type Lane = (Id, Id, Id)

  datatype CursorMove = Advanced | Kept | Failed(error: RepositoryError)

  /** `advance_cursor`: what the guarded upsert and the query behind it answer.
      Text that is not a number does not cast, which fails the statement. */
  function AdvanceCursor(cursors: map<Lane, Position>, lane: Lane, p: Position): CursorMove {
    if lane !in cursors then Advanced
    else
      var stored := cursors[lane];
      if stored.token > p.token then Failed(LeaseLost)
      else if !IsNumeric(p.kind) then Advanced
      else if !Money.AllDigits(stored.value) || !Money.AllDigits(p.value) then Failed(Unavailable)
      else if Money.DigitsValue(stored.value) <= Money.DigitsValue(p.value) then Advanced
      else Kept
  }

  // ----- the guarded batch -----

  datatype State = State(leases: map<string, LeaseRow>, observations: set<(Id, string)>, cursors: map<Lane, Position>)

  datatype Batch = Batch(source: Id, hashes: seq<string>, cursor: Option<(Lane, Position)>)

  datatype Report = Report(recorded: nat, duplicates: nat, cursorAdvanced: bool)

  function Keys(source: Id, hashes: seq<string>): set<(Id, string)> {
    set i | 0 <= i < |hashes| :: (source, hashes[i])
  }

  /** `record_observations`: nothing is written without the lease, and a cursor
      that fails takes the whole batch with it. */
  function Record(s: State, g: Grant, batch: Batch, databaseNow: Instant): (r: (State, Result<Report, RepositoryError>)) {
    if !Holds(s.leases, g, databaseNow) then (s, Err(LeaseLost))
    else
      var stored := s.observations + Keys(batch.source, batch.hashes);
      var added := |stored| - |s.observations|;
      SubsetSize(s.observations, stored);
      NewKeysBound(s.observations, batch.source, batch.hashes);
      var report := Report(added, |batch.hashes| - added, false);
      if batch.cursor.None? then (s.(observations := stored), Ok(report))
      else
        var (lane, p) := batch.cursor.value;
        match AdvanceCursor(s.cursors, lane, p)
        case Advanced => (s.(observations := stored, cursors := s.cursors[lane := p]), Ok(report.(cursorAdvanced := true)))
        case Kept => (s.(observations := stored), Ok(report))
        case Failed(e) => (s, Err(e))
  }

  lemma {:induction false} NewKeysBound(stored: set<(Id, string)>, source: Id, hashes: seq<string>)
    ensures |stored + Keys(source, hashes)| - |stored| <= |hashes|
  {
    if hashes == [] {
      assert stored + Keys(source, hashes) == stored;
    } else {
      var n := |hashes| - 1;
      NewKeysBound(stored, source, hashes[..n]);
      KeysSnoc(source, hashes[..n], hashes[n]);
      assert hashes == hashes[..n] + [hashes[n]];
      assert stored + Keys(source, hashes) == (stored + Keys(source, hashes[..n])) + {(source, hashes[n])};
    }
  }

  lemma KeysSnoc(source: Id, hashes: seq<string>, hash: string)
    ensures Keys(source, hashes + [hash]) == Keys(source, hashes) + {(source, hash)}
  {
    var more := hashes + [hash];
    assert more[|hashes|] == hash && forall i :: 0 <= i < |hashes| ==> more[i] == hashes[i];
    forall k | k in Keys(source, hashes) ensures k in Keys(source, more) {
      var i :| 0 <= i < |hashes| && k == (source, hashes[i]);
      assert more[i] == hashes[i];
    }
  }

  // ----- runs -----

  /** The tables, and every grant ever handed out, oldest first. */
  datatype System = System(state: State, log: seq<Grant>)

  datatype Step =
    | Request(component: string, holder: string, ttl: int, now: Instant)
    | Write(grant: nat, batch: Batch, databaseNow: Instant)

  /** Any holder may ask at any clock reading, and any grant ever given may be
      used for a write, however stale. */
  function Apply(s: System, step: Step): System {
    match step
    case Request(component, holder, ttl, now) =>
      var (leases, r) := Acquire(s.state.leases, component, holder, ttl, now);
      System(s.state.(leases := leases), if r.Ok? && r.value.Some? then s.log + [r.value.value] else s.log)
    case Write(k, batch, databaseNow) =>
      if k < |s.log| then s.(state := Record(s.state, s.log[k], batch, databaseNow).0) else s
  }

  function Run(s: System, steps: seq<Step>): System
    decreases |steps|
  {
    if steps == [] then s else Run(Apply(s, steps[0]), steps[1..])
  }

  /** Every grant is the current lease or an older one; tokens in the log never
      go down, and one token names one holder. */
  ghost predicate LogOk(s: System) {
    && (forall i :: 0 <= i < |s.log| ==> GrantOk(s.state.leases, s.log[i]))
    && (forall i, j :: 0 <= i < j < |s.log| && s.log[i].component == s.log[j].component ==> s.log[i].token <= s.log[j].token)
    && (forall i, j :: 0 <= i < j < |s.log| && s.log[i].component == s.log[j].component && s.log[i].token == s.log[j].token ==>
          s.log[i].holder == s.log[j].holder)
  }

  ghost predicate GrantOk(leases: map<string, LeaseRow>, g: Grant) {
    && g.component in leases && g.token <= leases[g.component].token
    && (g.token == leases[g.component].token ==> g.holder == leases[g.component].holder)
  }

  /** A component's token never goes down, and a change of holder moves it up. */
  lemma TokenNeverDecreases(s: System, step: Step, component: string)
    requires component in s.state.leases
    ensures component in Apply(s, step).state.leases
    ensures var before, after := s.state.leases[component], Apply(s, step).state.leases[component];
            && before.token <= after.token
            && (before.holder != after.holder ==> before.token < after.token)
  {}

  lemma StepKeepsLog(s: System, step: Step)
    requires LogOk(s)
    ensures LogOk(Apply(s, step))
  {
    var r := Apply(s, step);
    forall i | 0 <= i < |s.log| ensures GrantOk(r.state.leases, s.log[i]) {
      assert GrantOk(s.state.leases, s.log[i]);
      TokenNeverDecreases(s, step, s.log[i].component);
    }
    if |r.log| > |s.log| {
      var g := r.log[|s.log|];
      forall i | 0 <= i < |s.log| && s.log[i].component == g.component
        ensures s.log[i].token <= g.token && (s.log[i].token == g.token ==> s.log[i].holder == g.holder)
      {
        assert GrantOk(s.state.leases, s.log[i]);
      }
    }
  }

  /** Over every interleaving: tokens handed out never go down, and no token is
      ever handed to two different holders. */
  lemma {:induction false} RunKeepsLog(s: System, steps: seq<Step>)
    requires LogOk(s)
    ensures LogOk(Run(s, steps))
    ensures s.log <= Run(s, steps).log
    decreases |steps|
  {
    if steps != [] {
      StepKeepsLog(s, steps[0]);
      RunKeepsLog(Apply(s, steps[0]), steps[1..]);
    }
  }

  /** The grant has been superseded. */
  ghost predicate Fenced(s: System, k: nat)
    requires k < |s.log|
  {
    s.log[k].component in s.state.leases && s.log[k].token < s.state.leases[s.log[k].component].token
  }

  /** A takeover fences every grant given before it. */
  lemma TakeoverFences(s: System, step: Step, k: nat)
    requires LogOk(s) && k < |s.log| && step.Request? && s.log[k].component == step.component
    requires step.component in s.state.leases && s.state.leases[step.component].holder != step.holder
    requires |Apply(s, step).log| > |s.log|
    ensures Fenced(Apply(s, step), k)
  {
    assert GrantOk(s.state.leases, s.log[k]);
  }

  lemma {:induction false} FencedForever(s: System, steps: seq<Step>, k: nat)
    requires LogOk(s) && k < |s.log| && Fenced(s, k)
    ensures k < |Run(s, steps).log| && Run(s, steps).log[k] == s.log[k] && Fenced(Run(s, steps), k)
    decreases |steps|
  {
    if steps != [] {
      StepKeepsLog(s, steps[0]);
      TokenNeverDecreases(s, steps[0], s.log[k].component);
      FencedForever(Apply(s, steps[0]), steps[1..], k);
    }
  }

  /** Once a takeover has committed, no write under an earlier lease commits,
      whatever happens in between and whatever any clock says. */
  lemma NoWriteAfterTakeover(s: System, takeover: Step, steps: seq<Step>, k: nat, batch: Batch, databaseNow: Instant)
    requires LogOk(s) && k < |s.log| && takeover.Request? && s.log[k].component == takeover.component
    requires takeover.component in s.state.leases && s.state.leases[takeover.component].holder != takeover.holder
    requires |Apply(s, takeover).log| > |s.log|
    ensures var later := Run(Apply(s, takeover), steps).state;
            Record(later, s.log[k], batch, databaseNow) == (later, Err(LeaseLost))
  {
    TakeoverFences(s, takeover, k);
    StepKeepsLog(s, takeover);
    FencedForever(Apply(s, takeover), steps, k);
  }

  lemma {:induction false} TokenOverRun(s: System, steps: seq<Step>, component: string)
    requires component in s.state.leases
    ensures component in Run(s, steps).state.leases
    ensures var before, after := s.state.leases[component], Run(s, steps).state.leases[component];
            before.token <= after.token && (before.holder != after.holder ==> before.token < after.token)
    decreases |steps|
  {
    if steps != [] {
      TokenNeverDecreases(s, steps[0], component);
      TokenOverRun(Apply(s, steps[0]), steps[1..], component);
    }
  }

  /** Writers of a component take turns: if one grant could write and after any run
      another can, their tokens are in that order; and if the holders differ, the
      first never writes again, after any further run and at any clock reading. */
  lemma WritersTakeTurns(s: System, i: nat, now: Instant, steps: seq<Step>, j: nat, later: Instant,
                         more: seq<Step>, batch: Batch, last: Instant)
    requires LogOk(s) && i < |s.log| && Holds(s.state.leases, s.log[i], now)
    requires j < |Run(s, steps).log| && Run(s, steps).log[j].component == s.log[i].component
    requires Holds(Run(s, steps).state.leases, Run(s, steps).log[j], later)
    ensures s.log[i].token <= Run(s, steps).log[j].token
    ensures s.log[i].holder != Run(s, steps).log[j].holder ==>
              && s.log[i].token < Run(s, steps).log[j].token
              && var end := Run(Run(s, steps), more).state; Record(end, s.log[i], batch, last) == (end, Err(LeaseLost))
  {
    TokenOverRun(s, steps, s.log[i].component);
    RunKeepsLog(s, steps);
    if s.log[i].holder != Run(s, steps).log[j].holder {
      FencedForever(Run(s, steps), more, i);
    }
  }

  // ----- who has the component over a run -----

  /** The step lets another holder in: its lease ran out before the asker's clock. */
  predicate TakesOver(s: System, step: Step, component: string) {
    && step.Request? && step.component == component && component in s.state.leases
    && step.holder != s.state.leases[component].holder && s.state.leases[component].until < step.now
    && ValidTerm(step.ttl, step.now)
  }

  function Takeovers(s: System, steps: seq<Step>, component: string): nat
    decreases |steps|
  {
    if steps == [] then 0
    else (if TakesOver(s, steps[0], component) then 1 else 0) + Takeovers(Apply(s, steps[0]), steps[1..], component)
  }

  /** The token counts the takeovers, over every run: while nobody asks after the
      lease ran out, its holder keeps the component under the same token, and
      everyone who does ask then moves it up by one. */
  lemma {:induction false} TokenCountsTakeovers(s: System, steps: seq<Step>, component: string)
    requires component in s.state.leases
    ensures component in Run(s, steps).state.leases
    ensures var before, after := s.state.leases[component], Run(s, steps).state.leases[component];
            && after.token == before.token + Takeovers(s, steps, component)
            && (Takeovers(s, steps, component) == 0 ==> after.holder == before.holder)
    decreases |steps|
  {
    if steps != [] {
      StepCountsTakeover(s, steps[0], component);
      TokenCountsTakeovers(Apply(s, steps[0]), steps[1..], component);
    }
  }

  /** A request that is let in is logged, and a write under a logged grant changes
      the tables as its transaction does. */
  lemma StepSays(s: System, step: Step)
    ensures step.Request? ==>
              var (leases, r) := Acquire(s.state.leases, step.component, step.holder, step.ttl, step.now);
              && Apply(s, step).state == s.state.(leases := leases)
              && (r.Ok? && r.value.Some? ==> Apply(s, step).log == s.log + [r.value.value])
              && (r.Err? || r.value.None? ==> Apply(s, step).log == s.log)
    ensures step.Write? ==>
              && Apply(s, step).log == s.log
              && Apply(s, step).state == if step.grant < |s.log|
                                         then Record(s.state, s.log[step.grant], step.batch, step.databaseNow).0 else s.state
  {}

  lemma StepCountsTakeover(s: System, step: Step, component: string)
    requires component in s.state.leases
    ensures component in Apply(s, step).state.leases
    ensures var before, after := s.state.leases[component], Apply(s, step).state.leases[component];
            if TakesOver(s, step, component) then after.token == before.token + 1 && after.holder == step.holder
            else after.token == before.token && after.holder == before.holder
  {}

  // ----- cursors over runs -----

  /** A stored cursor is never removed and its token never goes down. */
  lemma {:induction false} CursorTokenNeverDecreases(s: System, steps: seq<Step>, lane: Lane)
    requires lane in s.state.cursors
    ensures lane in Run(s, steps).state.cursors
    ensures s.state.cursors[lane].token <= Run(s, steps).state.cursors[lane].token
    decreases |steps|
  {
    if steps != [] { CursorTokenNeverDecreases(Apply(s, steps[0]), steps[1..], lane); }
  }

  /** Every move the step asks of this lane is numeric, in digits. */
  predicate NumericOn(step: Step, lane: Lane) {
    step.Write? && step.batch.cursor.Some? && step.batch.cursor.value.0 == lane ==>
      !step.batch.cursor.value.1.kind.EventPosition? && Money.AllDigits(step.batch.cursor.value.1.value)
  }

  /** A lane moved only by numeric positions never goes backward. */
  lemma {:induction false} NumericLaneNeverRewinds(s: System, steps: seq<Step>, lane: Lane)
    requires lane in s.state.cursors && Money.AllDigits(s.state.cursors[lane].value)
    requires forall i :: 0 <= i < |steps| ==> NumericOn(steps[i], lane)
    ensures lane in Run(s, steps).state.cursors
    ensures Money.AllDigits(Run(s, steps).state.cursors[lane].value)
    ensures Money.DigitsValue(s.state.cursors[lane].value) <= Money.DigitsValue(Run(s, steps).state.cursors[lane].value)
    decreases |steps|
  {
    if steps != [] {
      assert NumericOn(steps[0], lane);
      NumericStep(s, steps[0], lane);
      NumericLaneNeverRewinds(Apply(s, steps[0]), steps[1..], lane);
    }
  }

  lemma NumericStep(s: System, step: Step, lane: Lane)
    requires lane in s.state.cursors && Money.AllDigits(s.state.cursors[lane].value) && NumericOn(step, lane)
    ensures var after := Apply(s, step).state.cursors;
            && lane in after && Money.AllDigits(after[lane].value)
            && Money.DigitsValue(s.state.cursors[lane].value) <= Money.DigitsValue(after[lane].value)
  {}

  /** The write's lease is the one in the table and has not run out. */
  predicate HeldNow(s: State, g: Grant, databaseNow: Instant) {
    && g.component in s.leases && s.leases[g.component].holder == g.holder
    && s.leases[g.component].token == g.token && databaseNow < s.leases[g.component].until
  }

  /** What a stored position allows: nothing under an older token, no numeric move
      that is not in digits or goes backward, and any move elsewhere. */
  predicate Newer(s: State, lane: Lane, p: Position) { lane in s.cursors && s.cursors[lane].token > p.token }

  predicate Unreadable(s: State, lane: Lane, p: Position) {
    lane in s.cursors && !p.kind.EventPosition? && !(Money.AllDigits(s.cursors[lane].value) && Money.AllDigits(p.value))
  }

  predicate Backward(s: State, lane: Lane, p: Position) {
    && lane in s.cursors && !p.kind.EventPosition? && !Unreadable(s, lane, p)
    && Money.DigitsValue(p.value) < Money.DigitsValue(s.cursors[lane].value)
  }

  /** Every answer of a guarded batch. Without the lease, under an older token than
      the stored cursor's, or with an unreadable position nothing is written at
      all; otherwise all observations are kept, counted as new or known, and the
      cursor moves unless that would take it backward. */
  lemma RecordSays(s: State, g: Grant, batch: Batch, databaseNow: Instant)
    ensures var (after, r) := Record(s, g, batch, databaseNow);
            var moved := batch.cursor.Some? && !Backward(s, batch.cursor.value.0, batch.cursor.value.1);
            && (r == Err(LeaseLost) <==> !HeldNow(s, g, databaseNow)
                                         || (batch.cursor.Some? && Newer(s, batch.cursor.value.0, batch.cursor.value.1)))
            && (r == Err(Unavailable) <==> && HeldNow(s, g, databaseNow) && batch.cursor.Some?
                                           && !Newer(s, batch.cursor.value.0, batch.cursor.value.1)
                                           && Unreadable(s, batch.cursor.value.0, batch.cursor.value.1))
            && (r.Err? ==> after == s && r.error != Corrupt)
            && (r.Ok? ==> && after.leases == s.leases
                          && after.observations == s.observations + Keys(batch.source, batch.hashes)
                          && r.value.recorded == |after.observations| - |s.observations|
                          && r.value.recorded + r.value.duplicates == |batch.hashes|
                          && r.value.cursorAdvanced == moved
                          && after.cursors == if moved then s.cursors[batch.cursor.value.0 := batch.cursor.value.1] else s.cursors)
  {
    SubsetSize(s.observations, s.observations + Keys(batch.source, batch.hashes));
    NewKeysBound(s.observations, batch.source, batch.hashes);
  }

  // ----- the tables as the transactions change them -----

  class Store {
    var leases: map<string, LeaseRow>
    var observations: set<(Id, string)>
    var cursors: map<Lane, Position>

    function Tables(): State
      reads this
    {
      State(leases, observations, cursors)
    }

    method AcquireComponentLease(component: string, holder: string, ttl: int, now: Instant)
      returns (r: Result<Option<Grant>, RepositoryError>)
      modifies this`leases
      ensures (leases, r) == Acquire(old(leases), component, holder, ttl, now)
    {
      if ttl <= 0 {
        return Err(Corrupt);
      }
      var until := CheckedLater(now, ttl);
      if until.None? {
        return Err(Corrupt);
      }
      var row := LeaseRow(holder, 1, until.value);
      if component in leases {
        var current := leases[component];
        if !(current.holder == holder || current.until < now) {
          return Ok(None);
        }
        row := LeaseRow(holder, if current.holder == holder then current.token else current.token + 1, until.value);
      }
      leases := leases[component := row];
      return Ok(Some(Grant(component, row.holder, row.token, row.until)));
    }

    method InsertObservations(source: Id, hashes: seq<string>) returns (recorded: nat, duplicates: nat)
      modifies this`observations
      ensures observations == old(observations) + Keys(source, hashes)
      ensures recorded == |observations| - |old(observations)| && recorded + duplicates == |hashes|
    {
      recorded, duplicates := 0, 0;
      for n := 0 to |hashes|
        invariant observations == old(observations) + Keys(source, hashes[..n])
        invariant recorded == |observations| - |old(observations)| && recorded + duplicates == n
      {
        var key := (source, hashes[n]);
        assert hashes[..n + 1] == hashes[..n] + [hashes[n]];
        KeysSnoc(source, hashes[..n], hashes[n]);
        if key !in observations {
          recorded := recorded + 1;
        } else {
          duplicates := duplicates + 1;
        }
        observations := observations + {key};
      }
      assert hashes[..|hashes|] == hashes;
    }

    method RecordObservations(g: Grant, batch: Batch, databaseNow: Instant) returns (r: Result<Report, RepositoryError>)
      modifies this`observations, this`cursors
      ensures Tables() == Record(old(Tables()), g, batch, databaseNow).0
      ensures r == Record(old(Tables()), g, batch, databaseNow).1
    {
      if !Holds(leases, g, databaseNow) {
        return Err(LeaseLost);
      }
      var start := observations;
      var recorded, duplicates := InsertObservations(batch.source, batch.hashes);
      if batch.cursor.None? {
        return Ok(Report(recorded, duplicates, false));
      }
      var (lane, p) := batch.cursor.value;
      var move := AdvanceCursor(cursors, lane, p);
      if move.Failed? {
        observations := start;
        return Err(move.error);
      }
      if move.Advanced? {
        cursors := cursors[lane := p];
      }
      return Ok(Report(recorded, duplicates, move.Advanced?));
    }
  }
}
