/**
 MQTT messages and cloud batches ingested at the same time: every worker looks up
 the predecessor, inserts, and only at its end advances last_seen_at, with the
 statements of different workers interleaved in any order.  One MQTT message is a
 worker with one reading; a batch is a worker with several.
 */
module ConcurrentIngest {
  import opened Options
  import opened TelemetryRules
  import opened Ingest
  import opened IngestTheorems
  import opened ArrivalTheorems

  /** A reading whose predecessor has been looked up but which is not inserted yet. */
  datatype LookedUp = LookedUp(arrival: Arrival, energyReset: bool)

  datatype Worker = Worker(device: string, current: Option<LookedUp>, latest: Option<Instant>)

  /** `inserted` is the history of inserts attempted so far, duplicates included. */
  datatype System = System(telemetry: Table, lastSeenAt: map<string, Instant>, workers: map<nat, Worker>, inserted: seq<Arrival>)

  datatype Action =
    | Begin(id: nat, device: string)
    | Lookup(id: nat, arrival: Arrival)
    | Insert(id: nat)
    | Finish(id: nat)

  ghost predicate Step(s: System, a: Action, s': System) {
    match a
    case Begin(id, device) =>
      && id !in s.workers
      && s' == s.(workers := s.workers[id := Worker(device, None, None)])
    case Lookup(id, arrival) =>
      && id in s.workers && s.workers[id].current.None? && arrival.key.device == s.workers[id].device
      && var reset := DetectEnergyReset(PreviousEnergy(s.telemetry, arrival.key.device, arrival.key.ts), arrival.reading.energyKWhTotal);
         s' == s.(workers := s.workers[id := s.workers[id].(current := Some(LookedUp(arrival, reset)))])
    case Insert(id) =>
      && id in s.workers && s.workers[id].current.Some?
      && var w, c := s.workers[id], s.workers[id].current.value;
         var ts := c.arrival.key.ts;
         s' == s.(telemetry := InsertReading(s.telemetry, c.arrival.key, Row(c.arrival.reading, c.energyReset)),
                  workers := s.workers[id := w.(current := None,
                                                latest := if w.latest.None? || ts > w.latest.value then Some(ts) else w.latest)],
                  inserted := s.inserted + [c.arrival])
    case Finish(id) =>
      && id in s.workers && s.workers[id].current.None?
      && var w := s.workers[id];
         s' == s.(lastSeenAt := if w.latest.None? then s.lastSeenAt else AdvanceLastSeen(s.lastSeenAt, w.device, w.latest.value),
                  workers := s.workers - {id})
  }

  ghost predicate Quiet(s: System) {
    s.workers == map[]
  }

  /** A stored reading is accounted for by last_seen_at or by a worker that has yet to advance it. */
  ghost predicate Covered(s: System, k: Key) {
    || (k.device in s.lastSeenAt && k.ts <= s.lastSeenAt[k.device])
    || exists id :: CoveredBy(s, k, id)
  }

  ghost predicate CoveredBy(s: System, k: Key, id: nat) {
    id in s.workers && s.workers[id].device == k.device && s.workers[id].latest.Some? && k.ts <= s.workers[id].latest.value
  }

  /** What last_seen_at and the workers point to is stored. */
  ghost predicate PointsToStored(s: System) {
    && LastSeenIsStored(s.telemetry, s.lastSeenAt)
    && (forall id :: id in s.workers && s.workers[id].latest.Some? ==> Key(s.workers[id].device, s.workers[id].latest.value) in s.telemetry)
    && (forall id :: id in s.workers && s.workers[id].current.Some? ==> s.workers[id].current.value.arrival.key.device == s.workers[id].device)
  }

  ghost predicate AllCovered(s: System) {
    forall k :: k in s.telemetry ==> Covered(s, k)
  }

  ghost predicate Inv(s: System, t0: Table) {
    PointsToStored(s) && AllCovered(s) && FirstReadingWins(t0, s.inserted, s.telemetry)
  }

  lemma StepKeepsCovered(s: System, a: Action, s': System, k: Key)
    requires Step(s, a, s') && Covered(s, k)
    ensures Covered(s', k)
  {
    if !(k.device in s.lastSeenAt && k.ts <= s.lastSeenAt[k.device]) {
      var id :| CoveredBy(s, k, id);
      if a.Finish? && a.id == id {
        assert k.device in s'.lastSeenAt && k.ts <= s'.lastSeenAt[k.device];
      } else {
        assert CoveredBy(s', k, id);
      }
    }
  }

  lemma FirstReadingWinsAfterInsert(t0: Table, inserted: seq<Arrival>, t: Table, a: Arrival, flag: bool)
    requires FirstReadingWins(t0, inserted, t)
    ensures FirstReadingWins(t0, inserted + [a], InsertReading(t, a.key, Row(a.reading, flag)))
  {
    assert (inserted + [a])[..|inserted|] == inserted;
  }

  lemma StepKeepsAllCovered(s: System, a: Action, s': System)
    requires PointsToStored(s) && AllCovered(s) && Step(s, a, s')
    ensures AllCovered(s')
  {
    forall k | k in s'.telemetry ensures Covered(s', k) {
      if k in s.telemetry {
        StepKeepsCovered(s, a, s', k);
      } else {
        assert CoveredBy(s', k, a.id);
      }
    }
  }

  lemma StepKeepsPointsToStored(s: System, a: Action, s': System)
    requires PointsToStored(s) && Step(s, a, s')
    ensures PointsToStored(s')
  {
    if a.Insert? {
      var key := s.workers[a.id].current.value.arrival.key;
      assert key == Key(key.device, key.ts);
    }
  }

  lemma StepKeepsInv(s: System, a: Action, s': System, t0: Table)
    requires Inv(s, t0) && Step(s, a, s')
    ensures Inv(s', t0)
  {
    StepKeepsPointsToStored(s, a, s');
    StepKeepsAllCovered(s, a, s');
    if a.Insert? {
      var c := s.workers[a.id].current.value;
      FirstReadingWinsAfterInsert(t0, s.inserted, s.telemetry, c.arrival, c.energyReset);
    }
    hide FirstReadingWins, PointsToStored, AllCovered;
  }

  lemma QuietStart(s: System)
    requires Quiet(s) && s.inserted == [] && SeenIsLatest(s.telemetry, s.lastSeenAt)
    ensures Inv(s, s.telemetry)
  {
  }

  ghost predicate IsRun(states: seq<System>, actions: seq<Action>) {
    && |states| == |actions| + 1
    && forall i :: 0 <= i < |actions| ==> Step(states[i], actions[i], states[i + 1])
  }

  lemma {:induction false} RunKeepsInv(states: seq<System>, actions: seq<Action>, n: nat)
    requires IsRun(states, actions) && n < |states|
    requires Quiet(states[0]) && states[0].inserted == [] && SeenIsLatest(states[0].telemetry, states[0].lastSeenAt)
    ensures Inv(states[n], states[0].telemetry)
    decreases n
  {
    hide Inv, Step, SeenIsLatest;
    if n == 0 {
      QuietStart(states[0]);
    } else {
      RunKeepsInv(states, actions, n - 1);
      StepKeepsInv(states[n - 1], actions[n - 1], states[n], states[0].telemetry);
    }
  }

  /**
   However the statements interleave, whenever no worker is active last_seen_at is
   the greatest stored instant of each device, and at every point each (device, ts)
   holds the first reading inserted there.
   */
  lemma QuietPointsAreExact(states: seq<System>, actions: seq<Action>, n: nat)
    requires IsRun(states, actions) && n < |states|
    requires Quiet(states[0]) && states[0].inserted == [] && SeenIsLatest(states[0].telemetry, states[0].lastSeenAt)
    ensures FirstReadingWins(states[0].telemetry, states[n].inserted, states[n].telemetry)
    ensures Quiet(states[n]) ==> SeenIsLatest(states[n].telemetry, states[n].lastSeenAt)
  {
    RunKeepsInv(states, actions, n);
    if Quiet(states[n]) {
      forall k | k in states[n].telemetry
        ensures k.device in states[n].lastSeenAt && k.ts <= states[n].lastSeenAt[k.device]
      {
        assert Covered(states[n], k);
      }
    }
  }
}
