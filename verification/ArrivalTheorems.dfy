/**
 Consequences of running as arrivals: last_seen_at is exact, the first reading at
 each (device, ts) wins, order does not matter, batches are one-by-one submissions
 and resubmitting a batch changes nothing.
 */
module ArrivalTheorems {
  import opened Options
  import opened TelemetryRules
  import opened Ingest
  import opened IngestTheorems

  // ---------- last_seen_at ----------

  /** last_seen_at is the greatest stored instant of each device that has stored readings, and only of those. */
  ghost predicate SeenIsLatest(t: Table, seen: map<string, Instant>) {
    && LastSeenIsStored(t, seen)
    && forall k :: k in t ==> k.device in seen && k.ts <= seen[k.device]
  }

  lemma {:induction false} ArrivalsKeepSeenLatest(t: Table, seen: map<string, Instant>, arrivals: seq<Arrival>)
    requires SeenIsLatest(t, seen)
    ensures SeenIsLatest(ArriveAll(t, arrivals), AdvanceAll(seen, arrivals))
    decreases |arrivals|
  {
    if arrivals != [] {
      ArrivalsKeepSeenLatest(t, seen, arrivals[..|arrivals| - 1]);
      var key := arrivals[|arrivals| - 1].key;
      assert key == Key(key.device, key.ts);
    }
  }

  lemma LastSeenIsTheLatestStored(st: State, es: seq<Event>)
    requires Legal(es) && NoFaultsIn(es) && SeenIsLatest(st.telemetry, st.lastSeenAt)
    ensures SeenIsLatest(Run(st, es).telemetry, Run(st, es).lastSeenAt)
  {
    RunIsArrivals(st, es);
    ArrivalsKeepSeenLatest(st.telemetry, st.lastSeenAt, AllArrivals(st.devices, es));
  }

  /** The table determines an exact last_seen_at. */
  lemma SeenIsDetermined(t: Table, a: map<string, Instant>, t': Table, b: map<string, Instant>)
    requires SeenIsLatest(t, a) && SeenIsLatest(t', b) && t.Keys == t'.Keys
    ensures a == b
  {
    forall d | d in a ensures d in b && b[d] >= a[d] {
      assert Key(d, a[d]) in t';
    }
    forall d | d in b ensures d in a && a[d] >= b[d] {
      assert Key(d, b[d]) in t;
    }
  }

  // ---------- the first reading wins, in any order ----------

  /** The stored values without the flag that depends on neighbours. */
  function Values(t: Table): map<Key, Reading> {
    map k | k in t :: t[k].reading
  }

  /** The position of the first arrival at `k`, or the length if there is none. */
  function FirstAt(arrivals: seq<Arrival>, k: Key): (i: nat)
    ensures i <= |arrivals|
    ensures forall j :: 0 <= j < i ==> arrivals[j].key != k
    ensures i < |arrivals| ==> arrivals[i].key == k
  {
    if arrivals == [] then 0
    else
      var i := FirstAt(arrivals[..|arrivals| - 1], k);
      if i < |arrivals| - 1 || arrivals[i].key == k then i else |arrivals|
  }

  /** Every key holds what it held before, or else its first accepted reading. */
  ghost predicate FirstReadingWins(t: Table, arrivals: seq<Arrival>, t': Table) {
    && (forall k :: k in t' <==> k in t || FirstAt(arrivals, k) < |arrivals|)
    && (forall k :: k in t ==> t'[k] == t[k])
    && (forall k :: k in t' && k !in t ==> t'[k].reading == arrivals[FirstAt(arrivals, k)].reading)
  }

  lemma {:induction false} ArrivalsLetTheFirstWin(t: Table, arrivals: seq<Arrival>)
    ensures FirstReadingWins(t, arrivals, ArriveAll(t, arrivals))
    decreases |arrivals|
  {
    if arrivals != [] {
      var n := |arrivals| - 1;
      ArrivalsLetTheFirstWin(t, arrivals[..n]);
      assert forall i :: 0 <= i < n ==> arrivals[..n][i] == arrivals[i];
    }
  }

  lemma RunLetsTheFirstReadingWin(st: State, es: seq<Event>)
    requires Legal(es) && NoFaultsIn(es)
    ensures FirstReadingWins(st.telemetry, AllArrivals(st.devices, es), Run(st, es).telemetry)
  {
    RunIsArrivals(st, es);
    ArrivalsLetTheFirstWin(st.telemetry, AllArrivals(st.devices, es));
  }

  predicate DistinctKeys(arrivals: seq<Arrival>) {
    forall i, j :: 0 <= i < j < |arrivals| ==> arrivals[i].key != arrivals[j].key
  }

  /** Among distinct keys the first arrival at a key is the only one, so its position does not matter. */
  lemma FirstIsThatOne(a: seq<Arrival>, b: seq<Arrival>, k: Key)
    requires DistinctKeys(b) && multiset(a) == multiset(b)
    requires FirstAt(a, k) < |a|
    ensures FirstAt(b, k) < |b| && a[FirstAt(a, k)] == b[FirstAt(b, k)]
  {
    assert a[FirstAt(a, k)] in multiset(b);
    var j :| 0 <= j < |b| && b[j] == a[FirstAt(a, k)];
    assert FirstAt(b, k) == j;
  }

  lemma PermutedKeysAreDistinct(a: seq<Arrival>, b: seq<Arrival>)
    requires DistinctKeys(a) && multiset(a) == multiset(b)
    ensures DistinctKeys(b)
  {
    forall i, j | 0 <= i < j < |b| ensures b[i].key != b[j].key {
      if b[i].key == b[j].key {
        assert b[i] in multiset(a) && b[j] in multiset(a);
        var p :| 0 <= p < |a| && a[p] == b[i];
        var q :| 0 <= q < |a| && a[q] == b[j];
        assert p == q;
        Twice(b, i, j);
        Once(a, p);
      }
    }
  }

  lemma Twice(b: seq<Arrival>, i: nat, j: nat)
    requires i < j < |b| && b[i] == b[j]
    ensures multiset(b)[b[i]] >= 2
  {
    assert b == b[..i] + [b[i]] + b[i + 1..j] + [b[j]] + b[j + 1..];
  }

  lemma Once(a: seq<Arrival>, p: nat)
    requires DistinctKeys(a) && p < |a|
    ensures multiset(a)[a[p]] == 1
  {
    assert a == a[..p] + [a[p]] + a[p + 1..];
    assert a[p] !in a[..p] && a[p] !in a[p + 1..];
  }

  /**
   Arrival order does not matter: two failure-free runs from the same state whose
   accepted readings are permutations of each other, with distinct (device, ts),
   store the same values and the same last_seen_at, whichever drivers carried them.
   */
  lemma ArrivalOrderDoesNotMatter(st: State, es: seq<Event>, es': seq<Event>)
    requires Legal(es) && Legal(es') && NoFaultsIn(es) && NoFaultsIn(es')
    requires SeenIsLatest(st.telemetry, st.lastSeenAt)
    requires multiset(AllArrivals(st.devices, es)) == multiset(AllArrivals(st.devices, es'))
    requires DistinctKeys(AllArrivals(st.devices, es))
    ensures Values(Run(st, es).telemetry) == Values(Run(st, es').telemetry)
    ensures Run(st, es).lastSeenAt == Run(st, es').lastSeenAt
  {
    hide *;
    var a, b := AllArrivals(st.devices, es), AllArrivals(st.devices, es');
    PermutedKeysAreDistinct(a, b);
    RunLetsTheFirstReadingWin(st, es);
    RunLetsTheFirstReadingWin(st, es');
    LastSeenIsTheLatestStored(st, es);
    LastSeenIsTheLatestStored(st, es');
    PermutedArrivalsStoreTheSame(st.telemetry, a, b, Run(st, es).telemetry, Run(st, es').telemetry);
    SeenIsDetermined(Run(st, es).telemetry, Run(st, es).lastSeenAt, Run(st, es').telemetry, Run(st, es').lastSeenAt);
  }

  lemma PermutedArrivalsStoreTheSame(t0: Table, a: seq<Arrival>, b: seq<Arrival>, t: Table, t': Table)
    requires DistinctKeys(a) && DistinctKeys(b) && multiset(a) == multiset(b)
    requires FirstReadingWins(t0, a, t) && FirstReadingWins(t0, b, t')
    ensures Values(t) == Values(t') && t.Keys == t'.Keys
  {
    hide DistinctKeys;
    forall k
      ensures k in t <==> k in t'
      ensures k in t ==> t[k].reading == t'[k].reading
    {
      if FirstAt(a, k) < |a| {
        FirstIsThatOne(a, b, k);
      }
      if FirstAt(b, k) < |b| {
        FirstIsThatOne(b, a, k);
      }
    }
  }

  // ---------- batches ----------

  function Healthy(): nat -> Faults {
    (i: nat) => NO_FAULTS
  }

  function Submit(device: string, rs: seq<CloudReading>, now: Instant): Event {
    Submission(device, true, rs, now, Healthy(), NO_FAULTS)
  }

  function OneByOne(device: string, rs: seq<CloudReading>, now: Instant): seq<Event> {
    seq(|rs|, i requires 0 <= i < |rs| => Submit(device, [rs[i]], now))
  }

  lemma {:induction false} OneByOneArrivals(devices: map<string, Device>, device: string, rs: seq<CloudReading>, now: Instant)
    requires device in devices && !devices[device].revoked
    ensures AllArrivals(devices, OneByOne(device, rs, now)) == AcceptedBatch(devices[device], device, rs, now)
    decreases |rs|
  {
    if rs != [] {
      var n := |rs| - 1;
      OneByOneArrivals(devices, device, rs[..n], now);
      SingleArrival(devices, device, rs[n], now);
      assert OneByOne(device, rs, now)[..n] == OneByOne(device, rs[..n], now);
      hide Accepted, ArrivalsOf;
    }
  }

  lemma SingleArrival(devices: map<string, Device>, device: string, r: CloudReading, now: Instant)
    requires device in devices && !devices[device].revoked
    ensures ArrivalsOf(devices, Submit(device, [r], now)) == Accepted(devices[device], device, CloudPayload(device, r), now)
  {
    hide Accepted;
    assert [r][..0] == [];
    assert AcceptedBatch(devices[device], device, [r], now)
           == AcceptedBatch(devices[device], device, [r][..0], now) + Accepted(devices[device], device, CloudPayload(device, r), now);
  }

  /** Submitting a batch is submitting its readings one by one. */
  lemma BatchIsOneByOne(st: State, device: string, rs: seq<CloudReading>, now: Instant)
    requires device in st.devices && !st.devices[device].revoked
    ensures Run(st, OneByOne(device, rs, now)).telemetry == Apply(st, Submit(device, rs, now)).telemetry
    ensures Run(st, OneByOne(device, rs, now)).lastSeenAt == Apply(st, Submit(device, rs, now)).lastSeenAt
  {
    RunIsArrivals(st, OneByOne(device, rs, now));
    StepIsArrivals(st, Submit(device, rs, now));
    OneByOneArrivals(st.devices, device, rs, now);
  }

  /** A message from a device's own datalogger and the same reading through cloud import store the same. */
  lemma BothPathsAgree(st: State, device: string, r: CloudReading, now: Instant)
    ensures var viaMqtt := Apply(st, Message(device, Mqtt(CloudPayload(device, r)), now, NO_FAULTS));
            var viaCloud := Apply(st, Submit(device, [r], now));
            viaMqtt.telemetry == viaCloud.telemetry && viaMqtt.lastSeenAt == viaCloud.lastSeenAt
  {
    StepIsArrivals(st, Message(device, Mqtt(CloudPayload(device, r)), now, NO_FAULTS));
    StepIsArrivals(st, Submit(device, [r], now));
    if device in st.devices && !st.devices[device].revoked {
      SingleArrival(st.devices, device, r, now);
    }
    hide Accepted, AcceptedBatch, Apply, ArriveAll, AdvanceAll;
  }

  // ---------- resubmission ----------

  ghost predicate AllPresent(t: Table, arrivals: seq<Arrival>) {
    forall i :: 0 <= i < |arrivals| ==> arrivals[i].key in t
  }

  lemma {:induction false} PresentArrivalsChangeNothing(t: Table, arrivals: seq<Arrival>)
    requires AllPresent(t, arrivals)
    ensures ArriveAll(t, arrivals) == t
    decreases |arrivals|
  {
    if arrivals != [] {
      PresentArrivalsChangeNothing(t, arrivals[..|arrivals| - 1]);
    }
  }

  lemma PresentConcat(t: Table, a: seq<Arrival>, b: seq<Arrival>)
    requires AllPresent(t, a + b)
    ensures AllPresent(t, a) && AllPresent(t, b)
  {
    assert forall i :: 0 <= i < |a| ==> (a + b)[i] == a[i];
    forall i | 0 <= i < |b| ensures b[i].key in t {
      assert (a + b)[|a| + i] == b[i];
    }
  }

  /** A reading that is stored already is reported as a duplicate. */
  lemma PresentIsDuplicate(t: Table, device: string, site: Device, p: Payload, now: Instant)
    requires AllPresent(t, Accepted(site, device, p, now))
    ensures var (t', v) := Judge(t, device, site, p, now, NO_FAULTS); t' == t && (v.Stored? ==> v.duplicate)
  {
    JudgeIsArrival(t, device, site, p, now);
    PresentArrivalsChangeNothing(t, Accepted(site, device, p, now));
  }

  /** Every accepted reading of a batch over readings that are stored already is reported as a duplicate. */
  lemma {:induction false} PresentBatchIsDuplicate(st: State, device: string, site: Device, rs: seq<CloudReading>, now: Instant)
    requires AllPresent(st.telemetry, AcceptedBatch(site, device, rs, now))
    ensures var (st', vs) := Batch(st, device, site, rs, now, Healthy());
            st'.telemetry == st.telemetry && forall i :: 0 <= i < |vs| && vs[i].Stored? ==> vs[i].duplicate
    decreases |rs|
  {
    if rs != [] {
      var n := |rs| - 1;
      hide AllPresent, Judge, Accepted;
      PresentConcat(st.telemetry, AcceptedBatch(site, device, rs[..n], now), Accepted(site, device, CloudPayload(device, rs[n]), now));
      PresentBatchIsDuplicate(st, device, site, rs[..n], now);
      PresentIsDuplicate(st.telemetry, device, site, CloudPayload(device, rs[n]), now);
      hide AcceptedBatch;
    }
  }

  lemma SubmittedIsPresent(t: Table, arrivals: seq<Arrival>)
    ensures AllPresent(ArriveAll(t, arrivals), arrivals)
  {
    ArrivalsLetTheFirstWin(t, arrivals);
    forall i | 0 <= i < |arrivals| ensures arrivals[i].key in ArriveAll(t, arrivals) {
      assert FirstAt(arrivals, arrivals[i].key) <= i;
    }
  }

  function KeysOf(arrivals: seq<Arrival>): seq<Key> {
    seq(|arrivals|, i requires 0 <= i < |arrivals| => arrivals[i].key)
  }

  /** When a batch is resubmitted later only the provenance of its readings may differ, never their keys. */
  lemma {:induction false} SameKeysLater(site: Device, device: string, rs: seq<CloudReading>, now: Instant, later: Instant)
    ensures KeysOf(AcceptedBatch(site, device, rs, now)) == KeysOf(AcceptedBatch(site, device, rs, later))
    decreases |rs|
  {
    if rs != [] {
      SameKeysLater(site, device, rs[..|rs| - 1], now, later);
      var p := CloudPayload(device, rs[|rs| - 1]);
      assert KeysOf(Accepted(site, device, p, now)) == KeysOf(Accepted(site, device, p, later));
      KeysOfConcat(AcceptedBatch(site, device, rs[..|rs| - 1], now), Accepted(site, device, p, now));
      KeysOfConcat(AcceptedBatch(site, device, rs[..|rs| - 1], later), Accepted(site, device, p, later));
    }
  }

  lemma KeysOfConcat(a: seq<Arrival>, b: seq<Arrival>)
    ensures KeysOf(a + b) == KeysOf(a) + KeysOf(b)
  {
  }

  lemma PresentByKeys(t: Table, a: seq<Arrival>, b: seq<Arrival>)
    requires AllPresent(t, a) && KeysOf(a) == KeysOf(b)
    ensures AllPresent(t, b)
  {
    assert |KeysOf(a)| == |a| && |KeysOf(b)| == |b|;
    forall i | 0 <= i < |b| ensures b[i].key in t {
      assert KeysOf(b)[i] == KeysOf(a)[i] == a[i].key;
    }
  }

  /** Resubmitting a batch, at any later time, changes neither the table nor last_seen_at and reports only duplicates. */
  lemma ResubmissionIsHarmless(st: State, device: string, rs: seq<CloudReading>, now: Instant, later: Instant)
    requires device in st.devices && !st.devices[device].revoked
    requires SeenIsLatest(st.telemetry, st.lastSeenAt)
    ensures var once := Apply(st, Submit(device, rs, now));
            var (twice, r) := Submitted(once, device, true, rs, later, Healthy(), NO_FAULTS);
            && twice.telemetry == once.telemetry && twice.lastSeenAt == once.lastSeenAt
            && r.Ok? && |r.value| == |rs|
            && forall i :: 0 <= i < |rs| && r.value[i].Stored? ==> r.value[i].duplicate
  {
    var site := st.devices[device];
    var first, again := AcceptedBatch(site, device, rs, now), AcceptedBatch(site, device, rs, later);
    var once := Apply(st, Submit(device, rs, now));
    StepIsArrivals(st, Submit(device, rs, now));
    SubmittedIsPresent(st.telemetry, first);
    SameKeysLater(site, device, rs, now, later);
    PresentByKeys(once.telemetry, first, again);
    PresentBatchIsDuplicate(once, device, site, rs, later);
    BatchExtends(once, device, site, rs, later, Healthy());
    ArrivalsKeepSeenLatest(st.telemetry, st.lastSeenAt, first);
    StepIsArrivals(once, Submit(device, rs, later));
    PresentArrivalsChangeNothing(once.telemetry, again);
    ArrivalsKeepSeenLatest(once.telemetry, once.lastSeenAt, again);
    var twice := Apply(once, Submit(device, rs, later));
    SeenIsDetermined(once.telemetry, once.lastSeenAt, twice.telemetry, twice.lastSeenAt);
    hide Batch, AcceptedBatch, ArriveAll, AdvanceAll;
  }
}
