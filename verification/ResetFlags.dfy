/**
 When the energy_reset flags are exact, and what that buys: on every day the
 cheap rollup energy equals the slow reset-aware sum over the stored readings.
 */
module ResetFlags {
  import opened Options
  import opened TelemetryRules
  import opened CounterSeries
  import opened EnergyTheorems
  import opened Rollup
  import opened Ingest
  import opened IngestTheorems
  import opened ArrivalTheorems

  /** The row is flagged exactly when the stored counter strictly descends to it. */
  ghost predicate FlagIsExact(t: Table, k: Key)
    requires k in t
  {
    t[k].energyReset <==> DetectEnergyReset(PreviousEnergy(t, k.device, k.ts), t[k].reading.energyKWhTotal)
  }

  ghost predicate FlagsExact(t: Table) {
    forall k :: k in t ==> FlagIsExact(t, k)
  }

  /** `k` is the stored reading that follows a reading arriving at `n`. */
  ghost predicate IsSuccessor(t: Table, n: Key, k: Key) {
    && k in t && k.device == n.device && n.ts < k.ts
    && forall j :: j in t && j.device == n.device && n.ts < j.ts ==> k.ts <= j.ts
  }

  lemma PredecessorAfterArrival(t: Table, n: Key, row: Row, j: Key)
    requires n !in t && j != n
    ensures var p := Predecessor(t, j.device, j.ts);
            Predecessor(t[n := row], j.device, j.ts)
            == if n.device == j.device && n.ts < j.ts && (p.None? || p.value < n.ts) then Some(n.ts) else p
  {
    var t' := t[n := row];
    var p := Predecessor(t, j.device, j.ts);
    var q := if n.device == j.device && n.ts < j.ts && (p.None? || p.value < n.ts) then Some(n.ts) else p;
    assert n == Key(n.device, n.ts);
    assert IsPredecessor(t'.Keys, j.device, j.ts, q);
    PredecessorIsUnique(t', j.device, j.ts, q);
  }

  lemma PredecessorOfTheArrival(t: Table, n: Key, row: Row)
    requires n !in t
    ensures Predecessor(t[n := row], n.device, n.ts) == Predecessor(t, n.device, n.ts)
  {
    PredecessorIsUnique(t[n := row], n.device, n.ts, Predecessor(t, n.device, n.ts));
  }

  /** A flag of a stored row stays exact, unless the new reading comes to lie right before it with another verdict. */
  lemma FlagAfterArrival(t: Table, n: Key, row: Row, k: Key)
    requires n !in t && k in t && FlagIsExact(t, k)
    ensures FlagIsExact(t[n := row], k)
            <==> (IsSuccessor(t, n, k) ==> (t[k].energyReset <==> t[k].reading.energyKWhTotal < row.reading.energyKWhTotal))
  {
    PredecessorAfterArrival(t, n, row, k);
    var p := Predecessor(t, k.device, k.ts);
    assert n == Key(n.device, n.ts) && k == Key(k.device, k.ts);
    if n.device == k.device && n.ts < k.ts {
      if p.None? || p.value < n.ts {
        assert IsSuccessor(t, n, k);
      } else {
        assert Key(k.device, p.value) in t && p.value != n.ts;
        assert !IsSuccessor(t, n, k);
      }
    }
  }

  /**
   Flags are set once and never recomputed.  A new reading keeps all flags exact
   if and only if the stored reading right after it, if there is one, is flagged
   exactly when it lies below the new reading.
   */
  lemma ArrivalKeepsFlagsExact(t: Table, a: Arrival)
    requires FlagsExact(t) && a.key !in t
    ensures FlagsExact(Arrive(t, a))
            <==> forall k :: IsSuccessor(t, a.key, k) ==> (t[k].energyReset <==> t[k].reading.energyKWhTotal < a.reading.energyKWhTotal)
  {
    var t', n := Arrive(t, a), a.key;
    PredecessorOfTheArrival(t, n, t'[n]);
    assert FlagIsExact(t', n);
    forall k | k in t
      ensures FlagIsExact(t', k)
              <==> (IsSuccessor(t, n, k) ==> (t[k].energyReset <==> t[k].reading.energyKWhTotal < a.reading.energyKWhTotal))
    {
      FlagAfterArrival(t, n, t'[n], k);
    }
  }

  /** Each device's readings arrive in timestamp order; repeating the latest is allowed. */
  predicate ArrivesInOrder(t: Table, arrivals: seq<Arrival>) {
    && (forall i, k :: 0 <= i < |arrivals| && k in t && k.device == arrivals[i].key.device ==> k.ts <= arrivals[i].key.ts)
    && (forall i, j :: 0 <= j < i < |arrivals| && arrivals[j].key.device == arrivals[i].key.device ==>
          arrivals[j].key.ts <= arrivals[i].key.ts)
  }

  lemma {:induction false} InOrderArrivalsKeepFlagsExact(t: Table, arrivals: seq<Arrival>)
    requires FlagsExact(t) && ArrivesInOrder(t, arrivals)
    ensures FlagsExact(ArriveAll(t, arrivals))
    decreases |arrivals|
  {
    if arrivals != [] {
      var n := |arrivals| - 1;
      var front, a := arrivals[..n], arrivals[n];
      assert forall i :: 0 <= i < n ==> front[i] == arrivals[i];
      InOrderArrivalsKeepFlagsExact(t, front);
      ArrivalsLetTheFirstWin(t, front);
      var before := ArriveAll(t, front);
      if a.key !in before {
        forall k ensures !IsSuccessor(before, a.key, k) {
          if k in before && k.device == a.key.device && k !in t {
            assert front[FirstAt(front, k)].key == k;
          }
        }
        ArrivalKeepsFlagsExact(before, a);
      }
    }
  }

  ghost predicate NonNegativeEnergies(t: Table) {
    forall k :: k in t ==> t[k].reading.energyKWhTotal >= 0.0
  }

  predicate NonNegativeArrivals(arrivals: seq<Arrival>) {
    forall i :: 0 <= i < |arrivals| ==> arrivals[i].reading.energyKWhTotal >= 0.0
  }

  lemma {:induction false} AcceptedBatchIsNonNegative(site: Device, device: string, rs: seq<CloudReading>, now: Instant)
    ensures NonNegativeArrivals(AcceptedBatch(site, device, rs, now))
    decreases |rs|
  {
    if rs != [] {
      AcceptedBatchIsNonNegative(site, device, rs[..|rs| - 1], now);
    }
  }

  lemma {:induction false} AcceptedReadingsAreNonNegative(devices: map<string, Device>, es: seq<Event>)
    ensures NonNegativeArrivals(AllArrivals(devices, es))
    decreases |es|
  {
    if es != [] {
      var e := es[|es| - 1];
      AcceptedReadingsAreNonNegative(devices, es[..|es| - 1]);
      if e.Submission? && e.device in devices {
        AcceptedBatchIsNonNegative(devices[e.device], e.device, e.readings, e.now);
      }
      assert NonNegativeArrivals(ArrivalsOf(devices, e)) by {
        hide AcceptedBatch;
      }
    }
  }

  // ---------- a day of one device ----------

  /** `tss` lists the instants of the device's stored readings in `from <= ts < to`, in order. */
  ghost predicate ListsReadings(t: Table, device: string, from: Instant, to: Instant, tss: seq<Instant>) {
    && (forall i, j :: 0 <= i < j < |tss| ==> tss[i] < tss[j])
    && (forall i :: 0 <= i < |tss| ==> from <= tss[i] < to && Key(device, tss[i]) in t)
    && (forall k :: k in t && k.device == device && from <= k.ts < to ==> k.ts in tss)
  }

  ghost function Energies(t: Table, device: string, tss: seq<Instant>): seq<real>
    requires forall i :: 0 <= i < |tss| ==> Key(device, tss[i]) in t
  {
    seq(|tss|, i requires 0 <= i < |tss| => t[Key(device, tss[i])].reading.energyKWhTotal)
  }

  /** The rollup row of a device's day: least and greatest energy, and whether any row of the day is flagged. */
  ghost predicate IsRollupOf(t: Table, device: string, from: Instant, to: Instant, tss: seq<Instant>, row: RollupRow) {
    && ListsReadings(t, device, from, to, tss) && tss != []
    && row.rawReadings == Energies(t, device, tss)
    && (row.hasReset <==> exists i :: 0 <= i < |tss| && t[Key(device, tss[i])].energyReset)
    && row.energyStartKWh.Some? && row.energyEndKWh.Some?
    && MinMax(row.rawReadings, row.energyStartKWh.value, row.energyEndKWh.value)
  }

  lemma NeighboursArePredecessors(t: Table, device: string, from: Instant, to: Instant, tss: seq<Instant>, i: nat)
    requires ListsReadings(t, device, from, to, tss) && i + 1 < |tss|
    ensures Predecessor(t, device, tss[i + 1]) == Some(tss[i])
  {
    forall k | k in t && k.device == device && k.ts < tss[i + 1] ensures k.ts <= tss[i] {
      if from <= k.ts {
        assert k.ts in tss;
        var j :| 0 <= j < |tss| && tss[j] == k.ts;
        assert j <= i;
      }
    }
    PredecessorIsUnique(t, device, tss[i + 1], Some(tss[i]));
  }

  lemma UnflaggedStep(t: Table, device: string, from: Instant, to: Instant, tss: seq<Instant>, i: nat)
    requires ListsReadings(t, device, from, to, tss) && i + 1 < |tss|
    requires FlagIsExact(t, Key(device, tss[i + 1])) && !t[Key(device, tss[i + 1])].energyReset
    ensures Energies(t, device, tss)[i] <= Energies(t, device, tss)[i + 1]
  {
    NeighboursArePredecessors(t, device, from, to, tss, i);
  }

  lemma {:induction false} StepwiseIsNonDecreasing(s: seq<real>, i: nat, j: nat)
    requires i <= j < |s| && forall k :: 0 <= k < |s| - 1 ==> s[k] <= s[k + 1]
    ensures s[i] <= s[j]
    decreases j - i
  {
    if i < j {
      StepwiseIsNonDecreasing(s, i, j - 1);
      assert s[j - 1] <= s[j - 1 + 1];
    }
  }

  /** The counter never descends on a day without a flag. */
  lemma UnflaggedDayNeverDescends(t: Table, device: string, from: Instant, to: Instant, tss: seq<Instant>, row: RollupRow)
    requires FlagsExact(t) && IsRollupOf(t, device, from, to, tss, row) && !row.hasReset
    ensures NonDecreasing(row.rawReadings)
  {
    var s := row.rawReadings;
    forall k | 0 <= k < |s| - 1 ensures s[k] <= s[k + 1] {
      assert !t[Key(device, tss[k + 1])].energyReset && FlagIsExact(t, Key(device, tss[k + 1]));
      UnflaggedStep(t, device, from, to, tss, k);
    }
    hide IsRollupOf, FlagsExact;
    forall i, j | 0 <= i < j < |s| ensures s[i] <= s[j] {
      StepwiseIsNonDecreasing(s, i, j);
    }
  }

  lemma StoredEnergiesAreNonNegative(t: Table, device: string, from: Instant, to: Instant, tss: seq<Instant>, row: RollupRow)
    requires NonNegativeEnergies(t) && IsRollupOf(t, device, from, to, tss, row)
    ensures NonNegative(row.rawReadings)
  {
  }

  /** With exact flags the daily energy of the rollup is the slow form, on flagged and unflagged days alike. */
  lemma ExactFlagsMakeTheFastFormExact(t: Table, device: string, from: Instant, to: Instant, tss: seq<Instant>, row: RollupRow)
    requires FlagsExact(t) && NonNegativeEnergies(t)
    requires IsRollupOf(t, device, from, to, tss, row)
    ensures DeviceDayEnergy(row) == DailyEnergy(Energies(t, device, tss))
  {
    if !row.hasReset {
      UnflaggedDayNeverDescends(t, device, from, to, tss, row);
      StoredEnergiesAreNonNegative(t, device, from, to, tss, row);
      hide FlagsExact, NonNegativeEnergies, NonDecreasing, NonNegative, DailyEnergy, ListsReadings, MinMax;
      FastEqualsSlow(row.rawReadings, row.energyStartKWh.value, row.energyEndKWh.value);
    }
  }

  /**
   In every failure-free run in which each device's readings arrive in timestamp
   order, the flags mark exactly the strict descents of the stored series, and on
   every day of every device the fast form equals the slow form.
   */
  lemma InOrderRunsHaveExactEnergy(st: State, es: seq<Event>)
    requires Legal(es) && NoFaultsIn(es)
    requires FlagsExact(st.telemetry) && NonNegativeEnergies(st.telemetry)
    requires ArrivesInOrder(st.telemetry, AllArrivals(st.devices, es))
    ensures FlagsExact(Run(st, es).telemetry)
    ensures forall device, from, to, tss, row ::
              IsRollupOf(Run(st, es).telemetry, device, from, to, tss, row) ==>
                DeviceDayEnergy(row) == DailyEnergy(Energies(Run(st, es).telemetry, device, tss))
  {
    var t := Run(st, es).telemetry;
    RunIsArrivals(st, es);
    InOrderArrivalsKeepFlagsExact(st.telemetry, AllArrivals(st.devices, es));
    assert NonNegativeEnergies(t) by {
      RunLetsTheFirstReadingWin(st, es);
      AcceptedReadingsAreNonNegative(st.devices, es);
    }
    hide *;
    forall device, from, to, tss, row | IsRollupOf(t, device, from, to, tss, row)
      ensures DeviceDayEnergy(row) == DailyEnergy(Energies(t, device, tss))
    {
      ExactFlagsMakeTheFastFormExact(t, device, from, to, tss, row);
    }
  }

  // ---------- out of order ----------

  /** Four readings of one device; the second in time arrives last. */
  function LateArrivals(r: Reading): seq<Arrival> {
    [Arrival(Key("d", 1), r.(energyKWhTotal := 10.0)),
     Arrival(Key("d", 3), r.(energyKWhTotal := 30.0)),
     Arrival(Key("d", 4), r.(energyKWhTotal := 60.0)),
     Arrival(Key("d", 2), r.(energyKWhTotal := 50.0))]
  }

  lemma ArriveAt(t: Table, arrivals: seq<Arrival>, n: nat, p: Option<Instant>)
    requires n < |arrivals| && t == ArriveAll(map[], arrivals[..n])
    requires var a := arrivals[n];
             && a.key !in t && IsPredecessor(t.Keys, a.key.device, a.key.ts, p)
             && (p.Some? ==> t[Key(a.key.device, p.value)].reading.energyKWhTotal <= a.reading.energyKWhTotal)
    ensures ArriveAll(map[], arrivals[..n + 1]) == t[arrivals[n].key := Row(arrivals[n].reading, false)]
  {
    PredecessorIsUnique(t, arrivals[n].key.device, arrivals[n].key.ts, p);
    assert arrivals[..n + 1][..n] == arrivals[..n];
  }

  /** The table after the three readings in order, and after the late one as well. */
  function OrderlyTable(r: Reading): Table {
    map[Key("d", 1) := Row(r.(energyKWhTotal := 10.0), false), Key("d", 3) := Row(r.(energyKWhTotal := 30.0), false),
        Key("d", 4) := Row(r.(energyKWhTotal := 60.0), false)]
  }

  lemma OrderlyPart(r: Reading)
    ensures ArriveAll(map[], LateArrivals(r)[..3]) == OrderlyTable(r)
  {
    var a := LateArrivals(r);
    assert ArriveAll(map[], a[..0]) == map[];
    hide ArriveAll;
    ArriveAt(map[], a, 0, None);
    ArriveAt(ArriveAll(map[], a[..1]), a, 1, Some(1));
    ArriveAt(ArriveAll(map[], a[..2]), a, 2, Some(3));
  }

  lemma LateTable(r: Reading)
    ensures ArriveAll(map[], LateArrivals(r)) == OrderlyTable(r)[Key("d", 2) := Row(r.(energyKWhTotal := 50.0), false)]
  {
    hide ArriveAll;
    OrderlyPart(r);
    var a := LateArrivals(r);
    ArriveAt(OrderlyTable(r), a, 3, Some(1));
    assert a[..4] == a;
  }

  /** A late reading can turn a later one into an unflagged descent: the rollup then reports 50 where 70 were generated. */
  lemma LateReadingBreaksTheFastForm(r: Reading, row: RollupRow)
    requires IsRollupOf(ArriveAll(map[], LateArrivals(r)), "d", 0, 10, [1, 2, 3, 4], row)
    ensures DeviceDayEnergy(row) == 50.0 && DailyEnergy(row.rawReadings) == 70.0
  {
    hide ArriveAll, LateArrivals, DailyEnergy;
    LateTable(r);
    var s := row.rawReadings;
    assert s == [10.0, 50.0, 30.0, 60.0];
    LateSeries();
    assert row.energyStartKWh.value <= s[0] && s[3] <= row.energyEndKWh.value;
  }

  lemma LateSeries()
    ensures DailyEnergy([10.0, 50.0, 30.0, 60.0]) == 70.0
  {
    var s := [10.0, 50.0, 30.0, 60.0];
    assert s[1..] == [50.0, 30.0, 60.0] && s[1..][1..] == [30.0, 60.0] && s[1..][1..][1..] == [60.0];
    assert Keep(Some(60.0), []) == [];
    assert Keep(Some(30.0), [60.0]) == [60.0];
    assert Keep(Some(50.0), [30.0, 60.0]) == [30.0, 60.0];
    assert Keep(Some(10.0), [50.0, 30.0, 60.0]) == [50.0, 30.0, 60.0];
    assert Filtered(s) == s;
    assert Rises([60.0]) == 0.0 && Rises([30.0, 60.0]) == 30.0 && Rises([50.0, 30.0, 60.0]) == 30.0;
  }
}
