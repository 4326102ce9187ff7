/**
 What every run of the two live drivers does to the telemetry table and to
 last_seen_at.  Both drivers refine one small machine: accepted readings arrive
 one at a time, the first at its (device, ts) wins, last_seen_at only advances.
 */
module IngestTheorems {
  import opened Options
  import opened TelemetryRules
  import opened Ingest

  datatype Event =
    | Message(device: string, raw: RawPayload, now: Instant, f: Faults)
    | Submission(device: string, tokenValid: bool, readings: seq<CloudReading>, now: Instant, fs: nat -> Faults, last: Faults)

  predicate IsMqtt(raw: RawPayload) {
    !raw.Cloud?
  }

  ghost function Apply(st: State, e: Event): State
    requires e.Message? ==> IsMqtt(e.raw)
  {
    match e
    case Message(device, raw, now, f) => Handled(st, device, raw, now, f).0
    case Submission(device, tokenValid, rs, now, fs, last) => Submitted(st, device, tokenValid, rs, now, fs, last).0
  }

  predicate Legal(es: seq<Event>) {
    forall i :: 0 <= i < |es| && es[i].Message? ==> IsMqtt(es[i].raw)
  }

  ghost function Run(st: State, es: seq<Event>): State
    requires Legal(es)
  {
    if es == [] then st else Apply(Run(st, es[..|es| - 1]), es[|es| - 1])
  }

  // ---------- safety under arbitrary database failures ----------

  ghost predicate Extends(t: Table, t': Table) {
    forall k :: k in t ==> k in t' && t'[k] == t[k]
  }

  /** Every last_seen_at is the instant of a stored reading of that device. */
  ghost predicate LastSeenIsStored(t: Table, seen: map<string, Instant>) {
    forall d :: d in seen ==> Key(d, seen[d]) in t
  }

  ghost predicate SeenOnlyAdvances(seen: map<string, Instant>, seen': map<string, Instant>) {
    forall d :: d in seen ==> d in seen' && seen[d] <= seen'[d]
  }

  /** One step's guarantees, whatever fails. */
  ghost predicate SafeStep(st: State, st': State) {
    && st'.devices == st.devices
    && Extends(st.telemetry, st'.telemetry)
    && SeenOnlyAdvances(st.lastSeenAt, st'.lastSeenAt)
    && LastSeenIsStored(st'.telemetry, st'.lastSeenAt)
    && st.audit <= st'.audit
  }

  lemma JudgeExtends(t: Table, device: string, site: Device, p: Payload, now: Instant, f: Faults)
    ensures var (t', v) := Judge(t, device, site, p, now, f);
            Extends(t, t') && (v.Stored? ==> Key(device, v.ts) in t')
  {
  }

  lemma {:induction false} BatchExtends(st: State, device: string, site: Device, rs: seq<CloudReading>, now: Instant, fs: nat -> Faults)
    ensures var (st', vs) := Batch(st, device, site, rs, now, fs);
            && |vs| == |rs|
            && st'.devices == st.devices && st'.lastSeenAt == st.lastSeenAt && st'.lastContactAt == st.lastContactAt
            && Extends(st.telemetry, st'.telemetry) && st.audit <= st'.audit
            && (LatestStored(vs).Some? ==> Key(device, LatestStored(vs).value) in st'.telemetry)
    decreases |rs|
  {
    if rs != [] {
      var n := |rs| - 1;
      BatchExtends(st, device, site, rs[..n], now, fs);
      var (before, vs) := Batch(st, device, site, rs[..n], now, fs);
      JudgeExtends(before.telemetry, device, site, CloudPayload(device, rs[n]), now, fs(n));
      var (after, v) := BatchStep(before, device, site, rs[n], now, fs(n));
      assert (vs + [v])[..n] == vs;
      hide Judge;
    }
  }

  /** Stored readings are never changed or removed, last_seen_at never moves back and never points past the data. */
  lemma EveryStepIsSafe(st: State, e: Event)
    requires e.Message? ==> IsMqtt(e.raw)
    requires LastSeenIsStored(st.telemetry, st.lastSeenAt)
    ensures SafeStep(st, Apply(st, e))
  {
    match e
    case Message(device, raw, now, f) => MessageIsSafe(st, device, raw, now, f);
    case Submission(device, tokenValid, rs, now, fs, last) => SubmissionIsSafe(st, device, tokenValid, rs, now, fs, last);
  }

  lemma MessageIsSafe(st: State, device: string, raw: RawPayload, now: Instant, f: Faults)
    requires IsMqtt(raw) && LastSeenIsStored(st.telemetry, st.lastSeenAt)
    ensures SafeStep(st, Handled(st, device, raw, now, f).0)
  {
    if raw.Mqtt? && device in st.devices {
      JudgeExtends(st.telemetry, device, st.devices[device], raw.payload, now, f);
    }
    hide Judge;
  }

  /** Pointing last_seen_at at a reading that is stored by now. */
  lemma AdvancingIsSafe(t: Table, t': Table, seen: map<string, Instant>, device: string, latest: Option<Instant>)
    requires LastSeenIsStored(t, seen) && Extends(t, t')
    ensures LastSeenIsStored(t', seen) && SeenOnlyAdvances(seen, seen)
    ensures latest.Some? && Key(device, latest.value) in t' ==> LastSeenIsStored(t', AdvanceLastSeen(seen, device, latest.value))
    ensures latest.Some? ==> SeenOnlyAdvances(seen, AdvanceLastSeen(seen, device, latest.value))
  {
  }

  lemma SubmissionIsSafe(st: State, device: string, tokenValid: bool, rs: seq<CloudReading>, now: Instant, fs: nat -> Faults, last: Faults)
    requires LastSeenIsStored(st.telemetry, st.lastSeenAt)
    ensures SafeStep(st, Submitted(st, device, tokenValid, rs, now, fs, last).0)
  {
    if device in st.devices {
      BatchExtends(st, device, st.devices[device], rs, now, fs);
      var (st1, verdicts) := Batch(st, device, st.devices[device], rs, now, fs);
      hide Batch, LatestStored;
      AdvancingIsSafe(st.telemetry, st1.telemetry, st.lastSeenAt, device, LatestStored(verdicts));
      hide LastSeenIsStored, Extends, SeenOnlyAdvances, AdvanceLastSeen;
    }
  }

  lemma {:induction false} EveryRunIsSafe(st: State, es: seq<Event>)
    requires Legal(es) && LastSeenIsStored(st.telemetry, st.lastSeenAt)
    ensures SafeStep(st, Run(st, es))
    decreases |es|
  {
    if es != [] {
      EveryRunIsSafe(st, es[..|es| - 1]);
      EveryStepIsSafe(Run(st, es[..|es| - 1]), es[|es| - 1]);
      hide Apply;
    }
  }

  // ---------- the abstract machine ----------

  /** An accepted reading, before it is known whether it is a duplicate. */
  datatype Arrival = Arrival(key: Key, reading: Reading)

  ghost function Arrive(t: Table, a: Arrival): Table {
    InsertReading(t, a.key, Row(a.reading, DetectEnergyReset(PreviousEnergy(t, a.key.device, a.key.ts), a.reading.energyKWhTotal)))
  }

  ghost function ArriveAll(t: Table, arrivals: seq<Arrival>): Table {
    if arrivals == [] then t else Arrive(ArriveAll(t, arrivals[..|arrivals| - 1]), arrivals[|arrivals| - 1])
  }

  function AdvanceAll(seen: map<string, Instant>, arrivals: seq<Arrival>): map<string, Instant> {
    if arrivals == [] then seen
    else
      var key := arrivals[|arrivals| - 1].key;
      AdvanceLastSeen(AdvanceAll(seen, arrivals[..|arrivals| - 1]), key.device, key.ts)
  }

  /** Which readings an event gets accepted depends on the device and the payload alone, never on stored data. */
  function Accepted(site: Device, device: string, p: Payload, now: Instant): seq<Arrival> {
    match Validate(p, PowerCeilingKW(site.systemSizeKW))
    case Err(_) => []
    case Ok(ts) => [Arrival(Key(device, ts), ToReading(p, site.siteId, ts, now))]
  }

  function AcceptedBatch(site: Device, device: string, rs: seq<CloudReading>, now: Instant): seq<Arrival> {
    if rs == [] then []
    else AcceptedBatch(site, device, rs[..|rs| - 1], now) + Accepted(site, device, CloudPayload(device, rs[|rs| - 1]), now)
  }

  function ArrivalsOf(devices: map<string, Device>, e: Event): seq<Arrival> {
    if e.device !in devices || devices[e.device].revoked then []
    else
      match e
      case Message(device, raw, now, _) => if raw.Mqtt? then Accepted(devices[device], device, raw.payload, now) else []
      case Submission(device, tokenValid, rs, now, _, _) => if tokenValid then AcceptedBatch(devices[device], device, rs, now) else []
  }

  function AllArrivals(devices: map<string, Device>, es: seq<Event>): seq<Arrival> {
    if es == [] then [] else AllArrivals(devices, es[..|es| - 1]) + ArrivalsOf(devices, es[|es| - 1])
  }

  ghost predicate NoFaults(e: Event) {
    match e
    case Message(_, _, _, f) => f == NO_FAULTS
    case Submission(_, _, _, _, fs, last) => last == NO_FAULTS && forall i: nat :: fs(i) == NO_FAULTS
  }

  ghost predicate NoFaultsIn(es: seq<Event>) {
    forall i :: 0 <= i < |es| ==> NoFaults(es[i])
  }

  lemma {:induction false} ArriveConcat(t: Table, seen: map<string, Instant>, a: seq<Arrival>, b: seq<Arrival>)
    ensures ArriveAll(t, a + b) == ArriveAll(ArriveAll(t, a), b)
    ensures AdvanceAll(seen, a + b) == AdvanceAll(AdvanceAll(seen, a), b)
    decreases |b|
  {
    if b == [] {
      assert a + b == a;
    } else {
      var n := |b| - 1;
      assert (a + b)[..|a + b| - 1] == a + b[..n];
      ArriveConcat(t, seen, a, b[..n]);
    }
  }

  lemma JudgeIsArrival(t: Table, device: string, site: Device, p: Payload, now: Instant)
    ensures var (t', v) := Judge(t, device, site, p, now, NO_FAULTS);
            var a := Accepted(site, device, p, now);
            && t' == ArriveAll(t, a)
            && (v.Stored? <==> a != [])
            && (v.Stored? ==> |a| == 1 && a[0].key == Key(device, v.ts) && (v.duplicate <==> a[0].key in t))
  {
    var a := Accepted(site, device, p, now);
    if a != [] {
      assert a[..0] == [];
      assert ArriveAll(t, a) == Arrive(ArriveAll(t, a[..0]), a[0]);
    }
    hide ArriveAll;
  }

  lemma {:induction false} BatchIsArrivals(st: State, device: string, site: Device, rs: seq<CloudReading>, now: Instant, fs: nat -> Faults)
    requires forall i: nat :: fs(i) == NO_FAULTS
    ensures var (st', vs) := Batch(st, device, site, rs, now, fs);
            var arrivals := AcceptedBatch(site, device, rs, now);
            && st'.telemetry == ArriveAll(st.telemetry, arrivals)
            && AdvanceAll(st.lastSeenAt, arrivals)
               == (if LatestStored(vs).None? then st.lastSeenAt else AdvanceLastSeen(st.lastSeenAt, device, LatestStored(vs).value))
    decreases |rs|
  {
    if rs != [] {
      var n := |rs| - 1;
      BatchIsArrivals(st, device, site, rs[..n], now, fs);
      var (before, vs) := Batch(st, device, site, rs[..n], now, fs);
      var p := CloudPayload(device, rs[n]);
      JudgeIsArrival(before.telemetry, device, site, p, now);
      var arrivals, a := AcceptedBatch(site, device, rs[..n], now), Accepted(site, device, p, now);
      ArriveConcat(st.telemetry, st.lastSeenAt, arrivals, a);
      var (after, v) := BatchStep(before, device, site, rs[n], now, fs(n));
      assert (vs + [v])[..n] == vs by {
        BatchExtends(st, device, site, rs[..n], now, fs);
      }
      LatestOfMore(st.lastSeenAt, device, vs, v, arrivals, a);
      hide Judge, Accepted, ArriveAll, AdvanceAll, LatestStored;
    }
  }

  lemma LatestOfMore(seen: map<string, Instant>, device: string, vs: seq<Verdict>, v: Verdict, arrivals: seq<Arrival>, a: seq<Arrival>)
    requires AdvanceAll(seen, arrivals) == if LatestStored(vs).None? then seen else AdvanceLastSeen(seen, device, LatestStored(vs).value)
    requires v.Stored? <==> a != []
    requires v.Stored? ==> |a| == 1 && a[0].key == Key(device, v.ts)
    ensures AdvanceAll(seen, arrivals + a)
            == var latest := LatestStored(vs + [v]); if latest.None? then seen else AdvanceLastSeen(seen, device, latest.value)
  {
    assert (vs + [v])[..|vs|] == vs;
    if a == [] {
      assert arrivals + a == arrivals;
    } else {
      assert (arrivals + a)[..|arrivals|] == arrivals;
    }
  }

  /** Without failures, each driver does to the table and to last_seen_at exactly what its accepted readings do. */
  lemma MessageIsArrival(st: State, device: string, raw: RawPayload, now: Instant)
    requires IsMqtt(raw)
    ensures var e := Message(device, raw, now, NO_FAULTS);
            && Apply(st, e).devices == st.devices
            && Apply(st, e).telemetry == ArriveAll(st.telemetry, ArrivalsOf(st.devices, e))
            && Apply(st, e).lastSeenAt == AdvanceAll(st.lastSeenAt, ArrivalsOf(st.devices, e))
  {
    if raw.Mqtt? && device in st.devices && !st.devices[device].revoked {
      var site := st.devices[device];
      JudgeIsArrival(st.telemetry, device, site, raw.payload, now);
      var a := Accepted(site, device, raw.payload, now);
      if a != [] {
        assert a[..0] == [];
        assert AdvanceAll(st.lastSeenAt, a) == AdvanceLastSeen(AdvanceAll(st.lastSeenAt, a[..0]), a[0].key.device, a[0].key.ts);
      }
      hide Judge, Accepted, ArriveAll;
    }
  }

  lemma StepIsArrivals(st: State, e: Event)
    requires e.Message? ==> IsMqtt(e.raw)
    requires NoFaults(e)
    ensures Apply(st, e).devices == st.devices
    ensures Apply(st, e).telemetry == ArriveAll(st.telemetry, ArrivalsOf(st.devices, e))
    ensures Apply(st, e).lastSeenAt == AdvanceAll(st.lastSeenAt, ArrivalsOf(st.devices, e))
  {
    match e
    case Message(device, raw, now, f) =>
      MessageIsArrival(st, device, raw, now);
    case Submission(device, tokenValid, rs, now, fs, last) =>
      if device in st.devices {
        BatchIsArrivals(st, device, st.devices[device], rs, now, fs);
        BatchExtends(st, device, st.devices[device], rs, now, fs);
        hide Batch, AcceptedBatch, LatestStored;
      }
  }

  lemma {:induction false} RunIsArrivals(st: State, es: seq<Event>)
    requires Legal(es) && NoFaultsIn(es)
    ensures Run(st, es).devices == st.devices
    ensures Run(st, es).telemetry == ArriveAll(st.telemetry, AllArrivals(st.devices, es))
    ensures Run(st, es).lastSeenAt == AdvanceAll(st.lastSeenAt, AllArrivals(st.devices, es))
    decreases |es|
  {
    if es != [] {
      var n := |es| - 1;
      RunIsArrivals(st, es[..n]);
      StepIsArrivals(Run(st, es[..n]), es[n]);
      ArriveConcat(st.telemetry, st.lastSeenAt, AllArrivals(st.devices, es[..n]), ArrivalsOf(st.devices, es[n]));
      hide Apply, ArriveAll, AdvanceAll, ArrivalsOf;
    }
  }
}
