/** What the energy series of Rollup mean: ordered, conserving, and additive over countries. */
module RollupTheorems {
  import opened Options
  import opened Calendar
  import opened Grouping
  import opened CounterSeries
  import opened Rollup

  // ---------- one row per day ----------

  /** The peak is the largest positive power of the day, held by a device that reached it first. */
  ghost predicate IsPeak(rows: seq<RollupRow>, d: Day, p: Peak) {
    && (forall i :: 0 <= i < |rows| && rows[i].day == d && rows[i].peakPowerKW.Some? ==> rows[i].peakPowerKW.value <= p.powerKW)
    && p.powerKW >= 0.0
    && (p == Peak(0.0, "") || exists i :: IsFirstAt(rows, d, p, i))
  }

  predicate IsFirstAt(rows: seq<RollupRow>, d: Day, p: Peak, i: int) {
    && 0 <= i < |rows| && rows[i].day == d && rows[i].peakPowerKW == Some(p.powerKW) && rows[i].deviceId == p.deviceId
    && p.powerKW > 0.0
    && (forall j :: 0 <= j < i && rows[j].day == d && rows[j].peakPowerKW.Some? ==> rows[j].peakPowerKW.value < p.powerKW)
  }

  lemma {:induction false} DayPeakIsPeak(rows: seq<RollupRow>, d: Day)
    ensures IsPeak(rows, d, DayPeak(rows, d))
    decreases |rows|
  {
    if rows != [] {
      var front, last := rows[..|rows| - 1], rows[|rows| - 1];
      DayPeakIsPeak(front, d);
      var before, p := DayPeak(front, d), DayPeak(rows, d);
      assert forall i :: 0 <= i < |front| ==> front[i] == rows[i];
      if p != before {
        assert IsFirstAt(rows, d, p, |rows| - 1);
      } else if p != Peak(0.0, "") {
        var i :| IsFirstAt(front, d, p, i);
        assert IsFirstAt(rows, d, p, i);
      }
    }
  }

  lemma {:induction false} NoSecondQuantity<T, K>(xs: seq<T>, key: T -> K, amount: T -> Amount, k: K)
    requires forall i :: 0 <= i < |xs| ==> amount(xs[i]).second == 0.0
    ensures GroupSum(xs, key, amount, k).second == 0.0
    decreases |xs|
  {
    if xs != [] {
      NoSecondQuantity(xs[..|xs| - 1], key, amount, k);
    }
  }

  lemma DailyRowsCarryTheGroups(rows: seq<RollupRow>)
    ensures var days := Keys(rows, RollupDay);
            |DailyRows(rows)| == |days| &&
            forall i :: 0 <= i < |days| ==>
              && DailyRows(rows)[i].day == days[i]
              && DailyAmount(DailyRows(rows)[i]) == GroupSum(rows, RollupDay, RollupAmount, days[i])
  {
    forall d {
      NoSecondQuantity(rows, RollupDay, RollupAmount, d);
    }
  }

  lemma PointsCarryTheGroups(rows: seq<DailyRow>, period: Period)
    ensures var starts, points := Keys(rows, DailyBucket(period)), Bucketed(rows, period).points;
            |points| == |starts| &&
            forall i :: 0 <= i < |starts| ==>
              && points[i].periodStart == starts[i]
              && PointAmount(points[i]) == GroupSum(rows, DailyBucket(period), DailyAmount, starts[i])
  {
    hide PeriodBucket;
    forall d {
      NoSecondQuantity(rows, DailyBucket(period), DailyAmount, d);
    }
  }

  /** Rows in day order, as the rollup queries return them, give strictly increasing days. */
  lemma DailyRowsAreOrdered(rows: seq<RollupRow>)
    requires KeysOrdered(rows, RollupDay)
    ensures forall i, j :: 0 <= i < j < |DailyRows(rows)| ==> DailyRows(rows)[i].day < DailyRows(rows)[j].day
  {
    KeysOfOrderedRows(rows, RollupDay);
  }

  /** What a single rollup row comes to: end minus start, or the raw readings' own total on a day with a reset. */
  lemma ADayOfOneDevice(r: RollupRow)
    ensures DailyRows([r])
            == [DailyRow(r.day,
                         if r.hasReset then DailyEnergy(r.rawReadings)
                         else if r.energyStartKWh.Some? && r.energyEndKWh.Some? then r.energyEndKWh.value - r.energyStartKWh.value
                         else 0.0,
                         if r.peakPowerKW.Some? && r.peakPowerKW.value > 0.0 then r.peakPowerKW.value else 0.0,
                         if r.peakPowerKW.Some? && r.peakPowerKW.value > 0.0 then r.deviceId else "",
                         r.readingCount,
                         r.backfilledCount)]
  {
    hide DailyEnergy;
    assert [r][..0] == [];
    assert Keys([r], RollupDay) == [r.day];
    assert GroupSum([r], RollupDay, RollupAmount, r.day) == RollupAmount(r);
    assert DayPeak([r], r.day) == if r.peakPowerKW.Some? && r.peakPowerKW.value > 0.0 then Peak(r.peakPowerKW.value, r.deviceId)
                                  else Peak(0.0, "");
    assert |DailyRows([r])| == 1;
  }

  // ---------- buckets ----------

  /** Bucketing day-ordered rows gives strictly increasing period starts. */
  lemma BucketedIsOrdered(rows: seq<DailyRow>, period: Period)
    requires forall i, j :: 0 <= i < j < |rows| ==> rows[i].day <= rows[j].day
    ensures var points := Bucketed(rows, period).points;
            forall i, j :: 0 <= i < j < |points| ==> points[i].periodStart < points[j].periodStart
  {
    hide PeriodBucket;
    forall i, j | 0 <= i < j < |rows|
      ensures DailyBucket(period)(rows[i]) <= DailyBucket(period)(rows[j])
    {
      BucketMonotone(rows[i].day, rows[j].day, period);
    }
    KeysOfOrderedRows(rows, DailyBucket(period));
  }

  /** Group-by-sum: every point holds the sums over exactly the days of its own period. */
  lemma BucketHoldsItsPeriod(rows: seq<DailyRow>, period: Period, i: nat)
    requires i < |Bucketed(rows, period).points|
    ensures var p := Bucketed(rows, period).points[i];
            && PeriodBucket(p.periodStart, period) == p.periodStart
            && PointAmount(p) == SumBetween(rows, p.periodStart, PeriodBucketEnd(p.periodStart, period))
            && exists j :: 0 <= j < |rows| && p.periodStart <= rows[j].day < PeriodBucketEnd(p.periodStart, period)
  {
    hide PeriodBucket, PeriodBucketEnd, BucketPoints, Keys, SumBetween;
    PointsCarryTheGroups(rows, period);
    var b := Keys(rows, DailyBucket(period))[i];
    KeysAreTheKeys(rows, DailyBucket(period));
    assert b in Keys(rows, DailyBucket(period));
    var j :| 0 <= j < |rows| && DailyBucket(period)(rows[j]) == b;
    BucketIdempotent(rows[j].day, period);
    BucketContainsDay(rows[j].day, period);
    GroupIsInterval(rows, period, b);
  }

  /** The sums over the days in `from <= day < to`. */
  function SumBetween(rows: seq<DailyRow>, from: Day, to: Day): Amount {
    if rows == [] then NOTHING
    else
      var before, r := SumBetween(rows[..|rows| - 1], from, to), rows[|rows| - 1];
      if from <= r.day < to then before.Plus(DailyAmount(r)) else before
  }

  lemma {:induction false} GroupIsInterval(rows: seq<DailyRow>, period: Period, b: Day)
    requires PeriodBucket(b, period) == b
    ensures GroupSum(rows, DailyBucket(period), DailyAmount, b) == SumBetween(rows, b, PeriodBucketEnd(b, period))
    decreases |rows|
  {
    hide PeriodBucket, PeriodBucketEnd;
    if rows != [] {
      GroupIsInterval(rows[..|rows| - 1], period, b);
      BucketIsInterval(b, rows[|rows| - 1].day, period);
    }
  }

  /** Bucketing conserves energy, reading counts and backfilled counts. */
  lemma BucketingConserves(rows: seq<DailyRow>, period: Period)
    ensures Sum(Bucketed(rows, period).points, PointAmount) == Sum(rows, DailyAmount)
    ensures Bucketed(rows, period).cumulativeKWh == Sum(rows, DailyAmount).energy
  {
    hide PeriodBucket;
    var key, starts := DailyBucket(period), Keys(rows, DailyBucket(period));
    KeysAreTheKeys(rows, key);
    Conservation(starts, rows, key, DailyAmount);
    PointsCarryTheGroups(rows, period);
    SumOfGroupedRows(Bucketed(rows, period).points, PointAmount, starts, rows, key, DailyAmount);
  }

  /** So does collapsing the devices of a day. */
  lemma CollapsingConserves(rows: seq<RollupRow>)
    ensures Sum(DailyRows(rows), DailyAmount) == Sum(rows, RollupAmount)
  {
    var days := Keys(rows, RollupDay);
    KeysAreTheKeys(rows, RollupDay);
    Conservation(days, rows, RollupDay, RollupAmount);
    DailyRowsCarryTheGroups(rows);
    SumOfGroupedRows(DailyRows(rows), DailyAmount, days, rows, RollupDay, RollupAmount);
  }

  // ---------- a point in terms of the rollup rows ----------

  /** The energy a series reports for the period starting at `b`; a missing point reports none. */
  function EnergyAt(points: seq<EnergyPoint>, b: Day): real {
    GroupSum(points, PointStart, PointAmount, b).energy
  }

  /** A series of distinct periods reports each point's own energy at its start. */
  lemma {:induction false} EnergyAtAPoint(points: seq<EnergyPoint>, i: nat)
    requires i < |points| && forall a, c :: 0 <= a < c < |points| ==> points[a].periodStart != points[c].periodStart
    ensures EnergyAt(points, points[i].periodStart) == points[i].energyKWh
    decreases |points|
  {
    var front, last := points[..|points| - 1], points[|points| - 1];
    if i < |points| - 1 {
      EnergyAtAPoint(front, i);
    } else {
      KeysAreTheKeys(front, PointStart);
      GroupSumOfAbsentKey(front, PointStart, PointAmount, last.periodStart);
    }
  }

  function Same(): Day -> Day {
    (d: Day) => d
  }

  /** Collapsing devices, then bucketing days, is summing the rollup rows of the period. */
  lemma PointsSumTheRollup(rows: seq<RollupRow>, period: Period, b: Day)
    ensures EnergyAt(Bucketed(DailyRows(rows), period).points, b)
            == GroupSum(rows, RollupBucket(period), RollupAmount, b).energy
  {
    hide *;
    BucketEnergy(DailyRows(rows), period, b);
    DailyRowsGroupFurther(rows, period, b);
  }

  lemma BucketEnergy(daily: seq<DailyRow>, period: Period, b: Day)
    ensures EnergyAt(Bucketed(daily, period).points, b) == GroupSum(daily, DailyBucket(period), DailyAmount, b).energy
  {
    hide PeriodBucket, BucketPoints;
    var starts, key := Keys(daily, DailyBucket(period)), DailyBucket(period);
    KeysAreTheKeys(daily, key);
    PointsCarryTheGroups(daily, period);
    Fusion(starts, daily, key, DailyAmount, Same(), key, b);
    GroupedRows(Bucketed(daily, period).points, PointStart, PointAmount, starts, daily, key, DailyAmount, Same(), b);
  }

  lemma DailyRowsGroupFurther(rows: seq<RollupRow>, period: Period, b: Day)
    ensures GroupSum(DailyRows(rows), DailyBucket(period), DailyAmount, b)
            == GroupSum(rows, RollupBucket(period), RollupAmount, b)
  {
    hide PeriodBucket, DailyRows;
    var days, daily := Keys(rows, RollupDay), DailyRows(rows);
    KeysAreTheKeys(rows, RollupDay);
    DailyRowsCarryTheGroups(rows);
    Fusion(days, rows, RollupDay, RollupAmount, BucketOf(period), RollupBucket(period), b);
    GroupedRows(daily, DailyBucket(period), DailyAmount, days, rows, RollupDay, RollupAmount, BucketOf(period), b);
  }

  // ---------- countries ----------

  /** The energies the countries `cs` report for the period starting at `b`. */
  function SumOfCountries(cs: seq<string>, byCountry: map<string, EnergySeries>, b: Day): real
    requires forall i :: 0 <= i < |cs| ==> cs[i] in byCountry
  {
    if cs == [] then 0.0
    else SumOfCountries(cs[..|cs| - 1], byCountry, b) + EnergyAt(byCountry[cs[|cs| - 1]].points, b)
  }

  lemma {:induction false} CountriesAreCategories(cs: seq<string>, rows: seq<RollupRow>, countryBySite: map<string, string>,
                                                  period: Period, byCountry: map<string, EnergySeries>, b: Day)
    requires forall i :: 0 <= i < |cs| ==> cs[i] in byCountry
    requires forall c :: c in byCountry ==> byCountry[c] == Bucketed(DailyRows(RowsOf(rows, countryBySite, c)), period)
    ensures SumOfCountries(cs, byCountry, b)
            == SumOfCategories(cs, rows, CountryOf(countryBySite), RollupBucket(period), RollupAmount, b).energy
    decreases |cs|
  {
    hide Bucketed, DailyRows, EnergyAt;
    if cs != [] {
      CountriesAreCategories(cs[..|cs| - 1], rows, countryBySite, period, byCountry, b);
      PointsSumTheRollup(RowsOf(rows, countryBySite, cs[|cs| - 1]), period, b);
    }
  }

  /** Per period the countries' energies add up to the fleet's own point, whatever order the countries come in. */
  lemma CountriesAddUpToTheFleet(cs: seq<string>, rows: seq<RollupRow>, countryBySite: map<string, string>,
                                 period: Period, byCountry: map<string, EnergySeries>, b: Day)
    requires Distinct(cs) && forall c :: c in cs <==> c in byCountry
    requires forall c :: c in byCountry <==> c in Keys(rows, CountryOf(countryBySite))
    requires forall c :: c in byCountry ==> byCountry[c] == Bucketed(DailyRows(RowsOf(rows, countryBySite, c)), period)
    ensures SumOfCountries(cs, byCountry, b) == EnergyAt(Bucketed(DailyRows(rows), period).points, b)
  {
    hide Bucketed, DailyRows, EnergyAt, RowsOf;
    KeysAreTheKeys(rows, CountryOf(countryBySite));
    CountriesAreCategories(cs, rows, countryBySite, period, byCountry, b);
    PartitionByCategory(cs, rows, CountryOf(countryBySite), RollupBucket(period), RollupAmount, b);
    PointsSumTheRollup(rows, period, b);
  }
}
