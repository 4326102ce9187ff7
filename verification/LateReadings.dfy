/**
 What a late reading does to the daily energy of the rollup.  Flags are not recomputed
 when an older reading arrives, so the reading after it may descend without a flag and
 the day keeps the fast form; sometimes that is still right, and this is exactly when.
 */
module LateReadings {
  import opened Options
  import opened TelemetryRules
  import opened CounterSeries
  import opened EnergyTheorems
  import opened Rollup
  import opened Ingest
  import opened IngestTheorems
  import opened ResetFlags

  // ---------- two climbs ----------

  /** Behind a reading `p`, the filter takes the first reading of the climb `b` for a glitch. */
  predicate Dropped(p: real, b: seq<real>) {
    |b| >= 2 && IsDip(p, b[0], b[1])
  }

  /** What the filter leaves of the climb `b` behind a reading `p`: at most its first reading looks like a glitch. */
  function AfterFilter(p: real, b: seq<real>): seq<real> {
    if Dropped(p, b) then b[1..] else b
  }

  /**
   A day climbs along `u` and then along `b`.  The fast form is right if the day does not
   descend from `u` to `b`; if `u` is a single reading, if the filter leaves `b` alone and
   `b` climbs back to it; and else if, after filtering, there is no descent or no rise left.
   */
  predicate FastFormHolds(u: seq<real>, b: seq<real>)
    requires u != []
  {
    b == [] || Last(u) <= b[0] ||
    var rest := AfterFilter(Last(u), b);
    if |u| == 1 then rest == b && Last(u) <= Last(b)
    else Last(u) <= rest[0] || rest[0] == Last(rest)
  }

  predicate Climb(s: seq<real>) {
    NonNegative(s) && NonDecreasing(s)
  }

  lemma FilterOfSecondClimb(p: real, b: seq<real>)
    requires Climb(b)
    ensures Keep(Some(p), b) == AfterFilter(p, b)
  {
    if b != [] {
      KeepOfMonotone(Some(b[0]), b[1..]);
      assert b == [b[0]] + b[1..];
    }
  }

  lemma FilterOfTwoClimbs(u: seq<real>, b: seq<real>)
    requires u != [] && Climb(u) && Climb(b)
    ensures Filtered(u + b) == u + AfterFilter(Last(u), b)
  {
    KeepOfClimb(None, u, b);
    hide Keep, AfterFilter;
    FilterOfSecondClimb(Last(u), b);
  }

  lemma RisesOfTwoClimbs(u: seq<real>, r: seq<real>)
    requires u != [] && Climb(u) && Climb(r)
    ensures Rises(u + r) == Last(u) - u[0] + (if r == [] then 0.0 else Rise(Last(u), r[0]) + Last(r) - r[0])
  {
    RisesOfConcat(u, r);
    RisesOfMonotone(u);
    if r != [] {
      RisesOfMonotone(r);
      assert ([Last(u)] + r)[1..] == r;
    }
  }

  lemma EnergyOfTwoClimbs(u: seq<real>, b: seq<real>)
    requires u != [] && Climb(u) && Climb(b)
    ensures var r := AfterFilter(Last(u), b);
            DailyEnergy(u + b) == Last(u) - u[0] + (if r == [] then 0.0 else Rise(Last(u), r[0]) + Last(r) - r[0])
  {
    FilterOfTwoClimbs(u, b);
    RisesOfTwoClimbs(u, AfterFilter(Last(u), b));
  }

  lemma ExtremesOfTwoClimbs(u: seq<real>, b: seq<real>, lo: real, hi: real)
    requires u != [] && Climb(u) && Climb(b) && MinMax(u + b, lo, hi)
    ensures lo == if b != [] && b[0] < u[0] then b[0] else u[0]
    ensures hi == if b != [] && Last(b) > Last(u) then Last(b) else Last(u)
  {
    var s := u + b;
    assert s[0] == u[0] && s[|u| - 1] == Last(u);
    if b != [] {
      assert s[|u|] == b[0] && s[|s| - 1] == Last(b);
    }
    var i :| 0 <= i < |s| && s[i] == lo;
    var j :| 0 <= j < |s| && s[j] == hi;
    InsideTwoClimbs(u, b, i);
    InsideTwoClimbs(u, b, j);
    hide Climb;
  }

  lemma InsideTwoClimbs(u: seq<real>, b: seq<real>, i: nat)
    requires u != [] && Climb(u) && Climb(b) && i < |u + b|
    ensures if i < |u| then u[0] <= (u + b)[i] <= Last(u) else b[0] <= (u + b)[i] <= Last(b)
  {
  }

  /**
   The ends of the climbs: `u0` to `p` along `u`, then from `b0` to `q` along `b`, of which
   the filter may drop the first reading, so that `r0` follows `p`.
   */
  lemma EndsOfTwoClimbs(single: bool, u0: real, p: real, b0: real, dropped: bool, r0: real, q: real)
    requires 0.0 <= u0 <= p && 0.0 <= b0 <= r0 <= q && (single ==> u0 == p) && (!single ==> u0 <= b0)
    requires if dropped then b0 + b0 < p && b0 + b0 < r0 else r0 == b0
    ensures (if q > p then q else p) - (if b0 < u0 then b0 else u0) == p - u0 + Rise(p, r0) + q - r0
            <==> (p <= b0 || if single then !dropped && p <= q else p <= r0 || r0 == q)
  {
  }

  lemma EndsOfTheFiltered(p: real, b: seq<real>)
    requires b != [] && Climb(b)
    ensures var r := AfterFilter(p, b);
            && r != [] && Last(r) == Last(b) && (r == b <==> !Dropped(p, b))
            && 0.0 <= b[0] <= r[0] <= Last(b)
            && (if Dropped(p, b) then b[0] + b[0] < p && b[0] + b[0] < r[0] else r[0] == b[0])
  {
    assert |b| >= 2 ==> |b[1..]| < |b|;
  }

  lemma ClimbBounds(s: seq<real>)
    requires s != [] && Climb(s)
    ensures 0.0 <= s[0] <= Last(s)
  {
  }

  /** Greatest minus least reading is the day's energy if and only if the fast form holds. */
  lemma TwoClimbsExactly(u: seq<real>, b: seq<real>, lo: real, hi: real)
    requires u != [] && Climb(u) && Climb(b) && MinMax(u + b, lo, hi)
    requires |u| >= 2 && b != [] ==> u[0] <= b[0]
    ensures hi - lo == DailyEnergy(u + b) <==> FastFormHolds(u, b)
  {
    assert b == [] ==> AfterFilter(Last(u), b) == [];
    hide DailyEnergy, MinMax, Climb, Dropped, Rise;
    ExtremesOfTwoClimbs(u, b, lo, hi);
    EnergyOfTwoClimbs(u, b);
    if b != [] {
      hide AfterFilter;
      ClimbBounds(u);
      EndsOfTheFiltered(Last(u), b);
      EndsOfTwoClimbs(|u| == 1, u[0], Last(u), b[0], Dropped(Last(u), b), AfterFilter(Last(u), b)[0], Last(b));
    }
  }

  // ---------- a late reading ----------

  /** The reading `a` arrives in a table without it; `k` is its place among its day's readings afterwards. */
  ghost predicate LateOn(t: Table, a: Arrival, from: Instant, to: Instant, tss: seq<Instant>, row: RollupRow, k: nat) {
    && FlagsExact(t) && NonNegativeEnergies(t) && a.key !in t && a.reading.energyKWhTotal >= 0.0
    && IsRollupOf(Arrive(t, a), a.key.device, from, to, tss, row)
    && k < |tss| && tss[k] == a.key.ts
  }

  lemma FlagsBesideTheSuccessor(t: Table, a: Arrival, from: Instant, to: Instant, tss: seq<Instant>, row: RollupRow, k: nat, i: nat)
    requires LateOn(t, a, from, to, tss, row, k) && i < |tss| && i != k + 1
    ensures FlagIsExact(Arrive(t, a), Key(a.key.device, tss[i]))
  {
    var t', n := Arrive(t, a), a.key;
    var key := Key(n.device, tss[i]);
    if i == k {
      PredecessorOfTheArrival(t, n, t'[n]);
      assert key == n;
    } else {
      assert key in t;
      FlagAfterArrival(t, n, t'[n], key);
      if k < i {
        assert Key(n.device, tss[k + 1]) in t && tss[k + 1] < tss[i];
      }
      assert !IsSuccessor(t, n, key);
    }
  }

  lemma DayHasNoFlag(t: Table, a: Arrival, from: Instant, to: Instant, tss: seq<Instant>, row: RollupRow, k: nat, i: nat)
    requires LateOn(t, a, from, to, tss, row, k) && !row.hasReset && i < |tss|
    ensures var t', key := Arrive(t, a), Key(a.key.device, tss[i]); key in t' && !t'[key].energyReset
    ensures ListsReadings(Arrive(t, a), a.key.device, from, to, tss) && row.rawReadings == Energies(Arrive(t, a), a.key.device, tss)
  {
  }

  /** Apart from the step after the late reading, the day does not descend. */
  lemma NoOtherDescent(t: Table, a: Arrival, from: Instant, to: Instant, tss: seq<Instant>, row: RollupRow, k: nat, i: nat)
    requires LateOn(t, a, from, to, tss, row, k) && !row.hasReset && i + 1 < |tss| && i != k
    ensures |row.rawReadings| == |tss| && row.rawReadings[i] <= row.rawReadings[i + 1]
  {
    FlagsBesideTheSuccessor(t, a, from, to, tss, row, k, i + 1);
    DayHasNoFlag(t, a, from, to, tss, row, k, i + 1);
    hide LateOn, ListsReadings, Arrive, FlagIsExact;
    UnflaggedStep(Arrive(t, a), a.key.device, from, to, tss, i);
  }

  lemma PredecessorAcross(t: Table, a: Arrival, from: Instant, to: Instant, tss: seq<Instant>, k: nat)
    requires a.key !in t && ListsReadings(Arrive(t, a), a.key.device, from, to, tss)
    requires 0 < k && k + 1 < |tss| && tss[k] == a.key.ts
    ensures Key(a.key.device, tss[k - 1]) in t && Key(a.key.device, tss[k + 1]) in t
    ensures Predecessor(t, a.key.device, tss[k + 1]) == Some(tss[k - 1])
  {
    var t', device := Arrive(t, a), a.key.device;
    assert Key(device, tss[k - 1]) in t' && Key(device, tss[k + 1]) in t' && Key(device, tss[k]) == a.key;
    forall j | j in t && j.device == device && j.ts < tss[k + 1] ensures j.ts <= tss[k - 1] {
      assert j in t' && j == Key(device, j.ts);
      if from <= j.ts {
        assert j.ts in tss;
        var m :| 0 <= m < |tss| && tss[m] == j.ts;
      }
    }
    PredecessorIsUnique(t, device, tss[k + 1], Some(tss[k - 1]));
  }

  lemma UnflaggedSuccessor(t: Table, device: string, before: Instant, after: Instant)
    requires Key(device, before) in t && Key(device, after) in t && Predecessor(t, device, after) == Some(before)
    requires FlagIsExact(t, Key(device, after)) && !t[Key(device, after)].energyReset
    ensures t[Key(device, before)].reading.energyKWhTotal <= t[Key(device, after)].reading.energyKWhTotal
  {
    hide Predecessor;
  }

  lemma ArrivalLeavesTheRest(t: Table, a: Arrival)
    ensures forall key :: key in Arrive(t, a) && key != a.key ==> key in t && Arrive(t, a)[key] == t[key]
  {
  }

  lemma StoredAsListed(t: Table, a: Arrival, from: Instant, to: Instant, tss: seq<Instant>, row: RollupRow, k: nat, i: nat)
    requires LateOn(t, a, from, to, tss, row, k) && i < |tss| && i != k
    ensures |row.rawReadings| == |tss| && Key(a.key.device, tss[i]) in t
    ensures row.rawReadings[i] == t[Key(a.key.device, tss[i])].reading.energyKWhTotal
    ensures FlagIsExact(t, Key(a.key.device, tss[i])) && (!row.hasReset ==> !t[Key(a.key.device, tss[i])].energyReset)
    ensures a.key !in t && tss[k] == a.key.ts
  {
    hide FlagIsExact, Arrive, MinMax;
    ArrivalLeavesTheRest(t, a);
    var key := Key(a.key.device, tss[i]);
    assert key in Arrive(t, a) && key != a.key;
  }

  /** The readings around the late one did not descend before it came. */
  lemma NoDescentAcross(t: Table, a: Arrival, from: Instant, to: Instant, tss: seq<Instant>, row: RollupRow, k: nat)
    requires LateOn(t, a, from, to, tss, row, k) && !row.hasReset && 0 < k && k + 1 < |tss|
    ensures |row.rawReadings| == |tss| && row.rawReadings[k - 1] <= row.rawReadings[k + 1]
  {
    hide *;
    DayHasNoFlag(t, a, from, to, tss, row, k, k);
    StoredAsListed(t, a, from, to, tss, row, k, k - 1);
    StoredAsListed(t, a, from, to, tss, row, k, k + 1);
    PredecessorAcross(t, a, from, to, tss, k);
    UnflaggedSuccessor(t, a.key.device, tss[k - 1], tss[k + 1]);
  }

  lemma StepwiseClimb(s: seq<real>)
    requires NonNegative(s) && forall i :: 0 <= i < |s| - 1 ==> s[i] <= s[i + 1]
    ensures Climb(s)
  {
    forall i, j | 0 <= i < j < |s| ensures s[i] <= s[j] {
      StepwiseIsNonDecreasing(s, i, j);
    }
  }

  /** A series whose one descent, if any, follows position `k`. */
  ghost predicate DescendsOnlyAfter(s: seq<real>, k: nat) {
    && k < |s| && NonNegative(s)
    && (forall i :: 0 <= i < |s| - 1 && i != k ==> s[i] <= s[i + 1])
    && (0 < k && k + 1 < |s| ==> s[k - 1] <= s[k + 1])
  }

  lemma SplitsIntoClimbs(s: seq<real>, k: nat)
    requires DescendsOnlyAfter(s, k)
    ensures var u, b := s[..k + 1], s[k + 1..];
            Climb(u) && Climb(b) && s == u + b && (|u| >= 2 && b != [] ==> u[0] <= b[0])
  {
    var u, b := s[..k + 1], s[k + 1..];
    StepwiseClimb(u);
    forall i | 0 <= i < |b| - 1 ensures b[i] <= b[i + 1] {
      assert s[k + 1 + i] <= s[k + 1 + i + 1];
    }
    StepwiseClimb(b);
    if |u| >= 2 && b != [] {
      StepwiseIsNonDecreasing(u, 0, k - 1);
      assert u[0] <= s[k - 1] <= s[k + 1] == b[0];
    }
  }

  lemma LateDayIsTwoClimbs(t: Table, a: Arrival, from: Instant, to: Instant, tss: seq<Instant>, row: RollupRow, k: nat)
    requires LateOn(t, a, from, to, tss, row, k) && !row.hasReset
    ensures |row.rawReadings| == |tss| && DescendsOnlyAfter(row.rawReadings, k)
  {
    var s := row.rawReadings;
    assert NonNegativeEnergies(Arrive(t, a)) && |s| == |tss|;
    StoredEnergiesAreNonNegative(Arrive(t, a), a.key.device, from, to, tss, row);
    hide LateOn, IsRollupOf, NonNegative;
    forall i | 0 <= i < |s| - 1 && i != k ensures s[i] <= s[i + 1] {
      NoOtherDescent(t, a, from, to, tss, row, k, i);
    }
    if 0 < k && k + 1 < |s| {
      NoDescentAcross(t, a, from, to, tss, row, k);
    }
  }

  lemma FastFormOfTheDay(row: RollupRow, k: nat)
    requires !row.hasReset && DescendsOnlyAfter(row.rawReadings, k)
    requires row.energyStartKWh.Some? && row.energyEndKWh.Some?
    requires MinMax(row.rawReadings, row.energyStartKWh.value, row.energyEndKWh.value)
    ensures DeviceDayEnergy(row) == DailyEnergy(row.rawReadings) <==> FastFormHolds(row.rawReadings[..k + 1], row.rawReadings[k + 1..])
  {
    SplitsIntoClimbs(row.rawReadings, k);
    var u, b := row.rawReadings[..k + 1], row.rawReadings[k + 1..];
    assert MinMax(u + b, row.energyStartKWh.value, row.energyEndKWh.value);
    hide FastFormHolds, DailyEnergy, MinMax, Climb, DescendsOnlyAfter;
    TwoClimbsExactly(u, b, row.energyStartKWh.value, row.energyEndKWh.value);
  }

  /**
   A late reading into an exactly flagged table: the rollup's energy of its day is right if
   and only if the day has a flag, or the fast form holds of the readings up to the late one
   and of those after it.
   */
  lemma LateReadingExactly(t: Table, a: Arrival, from: Instant, to: Instant, tss: seq<Instant>, row: RollupRow, k: nat)
    requires LateOn(t, a, from, to, tss, row, k)
    ensures |row.rawReadings| == |tss|
    ensures DeviceDayEnergy(row) == DailyEnergy(row.rawReadings)
            <==> (row.hasReset || FastFormHolds(row.rawReadings[..k + 1], row.rawReadings[k + 1..]))
  {
    LateRollup(t, a, from, to, tss, row, k);
    hide LateOn, FastFormHolds, DailyEnergy, MinMax, DescendsOnlyAfter;
    if !row.hasReset {
      LateDayIsTwoClimbs(t, a, from, to, tss, row, k);
      FastFormOfTheDay(row, k);
    }
  }

  lemma LateRollup(t: Table, a: Arrival, from: Instant, to: Instant, tss: seq<Instant>, row: RollupRow, k: nat)
    requires LateOn(t, a, from, to, tss, row, k)
    ensures |row.rawReadings| == |tss| && row.energyStartKWh.Some? && row.energyEndKWh.Some?
    ensures MinMax(row.rawReadings, row.energyStartKWh.value, row.energyEndKWh.value)
  {
  }

  /** Every other day keeps its readings, its flags and its right energy. */
  lemma OtherDaysStayRight(t: Table, a: Arrival, device: string, from: Instant, to: Instant, tss: seq<Instant>, row: RollupRow)
    requires FlagsExact(t) && NonNegativeEnergies(t) && a.key !in t
    requires IsRollupOf(Arrive(t, a), device, from, to, tss, row)
    requires a.key.device != device || a.key.ts < from || to <= a.key.ts
    ensures DeviceDayEnergy(row) == DailyEnergy(row.rawReadings)
  {
    var t' := Arrive(t, a);
    forall i | 0 <= i < |tss| ensures Key(device, tss[i]) in t && t[Key(device, tss[i])] == t'[Key(device, tss[i])] {
      assert Key(device, tss[i]) != a.key;
    }
    assert Energies(t, device, tss) == Energies(t', device, tss);
    assert IsRollupOf(t, device, from, to, tss, row);
    ExactFlagsMakeTheFastFormExact(t, device, from, to, tss, row);
  }
}
