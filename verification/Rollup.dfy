/**
 From per-device daily rollup rows to energy series by period and by country
 (internal/registry/analytics.go).
 */
module Rollup {
  import opened Options
  import opened Calendar
  import opened Grouping
  import opened CounterSeries

  /**
   One row of the telemetry_daily view, together with what the raw query for the
   same device and day would return: the day's energy readings in ts order.
   */
  datatype RollupRow = RollupRow(
    deviceId: string,
    siteId: string,
    day: Day,
    peakPowerKW: Option<real>,
    energyStartKWh: Option<real>,
    energyEndKWh: Option<real>,
    readingCount: int,
    backfilledCount: int,
    hasReset: bool,
    rawReadings: seq<real>)

  datatype DailyRow = DailyRow(
    day: Day,
    energyKWh: real,
    peakPowerKW: real,
    peakDeviceId: string,
    readingCount: int,
    backfilledCount: int)

  datatype EnergyPoint = EnergyPoint(periodStart: Day, energyKWh: real, readingCount: int, backfilledCount: int)

  datatype EnergySeries = EnergySeries(points: seq<EnergyPoint>, cumulativeKWh: real)

  /** Fast form, end minus start, unless the day holds a reset. */
  function DeviceDayEnergy(r: RollupRow): real {
    if !r.hasReset then
      if r.energyStartKWh.None? || r.energyEndKWh.None? then 0.0
      else r.energyEndKWh.value - r.energyStartKWh.value
    else DailyEnergy(r.rawReadings)
  }

  // ---------- what the loops compute ----------

  function RollupDay(r: RollupRow): Day {
    r.day
  }

  function RollupAmount(r: RollupRow): Amount {
    Amount(DeviceDayEnergy(r), 0.0, r.readingCount, r.backfilledCount)
  }

  function DailyAmount(r: DailyRow): Amount {
    Amount(r.energyKWh, 0.0, r.readingCount, r.backfilledCount)
  }

  function PointStart(p: EnergyPoint): Day {
    p.periodStart
  }

  function PointAmount(p: EnergyPoint): Amount {
    Amount(p.energyKWh, 0.0, p.readingCount, p.backfilledCount)
  }

  function BucketOf(period: Period): Day -> Day {
    d => PeriodBucket(d, period)
  }

  function DailyBucket(period: Period): DailyRow -> Day {
    (r: DailyRow) => PeriodBucket(r.day, period)
  }

  function RollupBucket(period: Period): RollupRow -> Day {
    (r: RollupRow) => PeriodBucket(r.day, period)
  }

  datatype Peak = Peak(powerKW: real, deviceId: string)

  /** The highest power among the rows of day `d` and the first device to reach it; nothing if none is positive. */
  function DayPeak(rows: seq<RollupRow>, d: Day): Peak {
    if rows == [] then Peak(0.0, "")
    else
      var before, r := DayPeak(rows[..|rows| - 1], d), rows[|rows| - 1];
      if r.day == d && r.peakPowerKW.Some? && r.peakPowerKW.value > before.powerKW
      then Peak(r.peakPowerKW.value, r.deviceId) else before
  }

  function DayRow(rows: seq<RollupRow>, d: Day): DailyRow {
    var a, peak := GroupSum(rows, RollupDay, RollupAmount, d), DayPeak(rows, d);
    DailyRow(d, a.energy, peak.powerKW, peak.deviceId, a.readings, a.backfilled)
  }

  /** One row per day that occurs, in order of first appearance, holding the day's sums and peak. */
  function DailyRows(rows: seq<RollupRow>): seq<DailyRow> {
    var days := Keys(rows, RollupDay);
    seq(|days|, i requires 0 <= i < |days| => DayRow(rows, days[i]))
  }

  function BucketPoint(rows: seq<DailyRow>, period: Period, b: Day): EnergyPoint {
    var a := GroupSum(rows, DailyBucket(period), DailyAmount, b);
    EnergyPoint(b, a.energy, a.readings, a.backfilled)
  }

  function BucketPoints(rows: seq<DailyRow>, period: Period): seq<EnergyPoint> {
    var starts := Keys(rows, DailyBucket(period));
    seq(|starts|, i requires 0 <= i < |starts| => BucketPoint(rows, period, starts[i]))
  }

  function Bucketed(rows: seq<DailyRow>, period: Period): EnergySeries {
    EnergySeries(BucketPoints(rows, period), Sum(BucketPoints(rows, period), PointAmount).energy)
  }

  // ---------- the source's loops ----------

  /** The loop of loadSiteDailyRows and, line for line, of loadFleetDailyRows. */
  method CollapseByDay(rows: seq<RollupRow>) returns (result: seq<DailyRow>)
    ensures result == DailyRows(rows)
  {
    var byDay: map<Day, DailyRow> := map[];
    var order: seq<Day> := [];
    for i := 0 to |rows|
      invariant order == Keys(rows[..i], RollupDay)
      invariant byDay == map d | d in order :: DayRow(rows[..i], d)
    {
      byDay, order := AddToDay(byDay, order, rows[i], rows[..i]);
      PrefixStep(rows, i);
    }
    assert rows[..|rows|] == rows;
    result := InOrder(byDay, order, rows);
  }

  lemma KeysOfMore<T, K>(xs: seq<T>, x: T, key: T -> K)
    ensures Keys(xs + [x], key) == Keys(xs, key) + if key(x) in Keys(xs, key) then [] else [key(x)]
  {
    assert (xs + [x])[..|xs|] == xs;
  }

  lemma DayRowOfMore(seen: seq<RollupRow>, r: RollupRow, d: Day)
    ensures var out := DayRow(seen, d);
            DayRow(seen + [r], d)
            == if r.day != d then out
               else
                 var summed := out.(energyKWh := out.energyKWh + DeviceDayEnergy(r),
                                    readingCount := out.readingCount + r.readingCount,
                                    backfilledCount := out.backfilledCount + r.backfilledCount);
                 if r.peakPowerKW.Some? && r.peakPowerKW.value > out.peakPowerKW
                 then summed.(peakPowerKW := r.peakPowerKW.value, peakDeviceId := r.deviceId) else summed
  {
    hide DeviceDayEnergy;
    assert (seen + [r])[..|seen|] == seen;
  }

  /** One pass of the loop body; `seen` are the rows already added. */
  method AddToDay(byDay: map<Day, DailyRow>, order: seq<Day>, r: RollupRow, ghost seen: seq<RollupRow>)
      returns (byDay': map<Day, DailyRow>, order': seq<Day>)
    requires order == Keys(seen, RollupDay)
    requires byDay == map d | d in order :: DayRow(seen, d)
    ensures order' == Keys(seen + [r], RollupDay)
    ensures byDay' == map d | d in order' :: DayRow(seen + [r], d)
  {
    byDay', order' := byDay, order;
    KeysOfMore(seen, r, RollupDay);
    forall d | d in order || d == r.day {
      DayRowOfMore(seen, r, d);
    }
    hide DayRow, Keys, DeviceDayEnergy;
    var day := r.day;
    if day !in byDay {
      byDay' := byDay'[day := DailyRow(day, 0.0, 0.0, "", 0, 0)];
      order' := order' + [day];
      NewDayIsEmpty(seen, day);
    }
    var out := byDay'[day];
    out := out.(energyKWh := out.energyKWh + DeviceDayEnergy(r),
                readingCount := out.readingCount + r.readingCount,
                backfilledCount := out.backfilledCount + r.backfilledCount);
    if r.peakPowerKW.Some? && r.peakPowerKW.value > out.peakPowerKW {
      out := out.(peakPowerKW := r.peakPowerKW.value, peakDeviceId := r.deviceId);
    }
    byDay' := byDay'[day := out];
  }

  lemma {:induction false} NewDayIsEmpty(rows: seq<RollupRow>, d: Day)
    requires d !in Keys(rows, RollupDay)
    ensures DayRow(rows, d) == DailyRow(d, 0.0, 0.0, "", 0, 0)
    decreases |rows|
  {
    GroupSumOfAbsentKey(rows, RollupDay, RollupAmount, d);
    if rows != [] {
      NewDayIsEmpty(rows[..|rows| - 1], d);
    }
  }

  method BucketDailyRows(rows: seq<DailyRow>, period: Period) returns (series: EnergySeries)
    ensures series == Bucketed(rows, period)
  {
    var byBucket: map<Day, EnergyPoint> := map[];
    var order: seq<Day> := [];
    for i := 0 to |rows|
      invariant order == Keys(rows[..i], DailyBucket(period))
      invariant byBucket == map b | b in order :: BucketPoint(rows[..i], period, b)
    {
      byBucket, order := AddToBucket(byBucket, order, rows[i], period, rows[..i]);
      PrefixStep(rows, i);
    }
    assert rows[..|rows|] == rows;
    series := SeriesInOrder(byBucket, order, rows, period);
  }

  method SeriesInOrder(byBucket: map<Day, EnergyPoint>, order: seq<Day>, ghost rows: seq<DailyRow>, ghost period: Period)
      returns (series: EnergySeries)
    requires order == Keys(rows, DailyBucket(period))
    requires byBucket == map b | b in order :: BucketPoint(rows, period, b)
    ensures series == Bucketed(rows, period)
  {
    ghost var points := BucketPoints(rows, period);
    PointsInOrder(byBucket, order, rows, period);
    hide BucketPoints, BucketPoint, Keys;
    series := EnergySeries([], 0.0);
    for i := 0 to |order|
      invariant series.points == points[..i]
      invariant series.cumulativeKWh == Sum(series.points, PointAmount).energy
    {
      var point := byBucket[order[i]];
      SumAppend(series.points, point, PointAmount);
      PrefixStep(points, i);
      series := EnergySeries(series.points + [point], series.cumulativeKWh + point.energyKWh);
    }
    assert points[..|order|] == points;
  }

  lemma PointsInOrder(byBucket: map<Day, EnergyPoint>, order: seq<Day>, rows: seq<DailyRow>, period: Period)
    requires order == Keys(rows, DailyBucket(period))
    requires byBucket == map b | b in order :: BucketPoint(rows, period, b)
    ensures var points := BucketPoints(rows, period);
            |points| == |order| && forall i :: 0 <= i < |order| ==> order[i] in byBucket && byBucket[order[i]] == points[i]
  {
    hide BucketPoint;
  }

  lemma PointOfMore(seen: seq<DailyRow>, r: DailyRow, period: Period, b: Day)
    ensures var p := BucketPoint(seen, period, b);
            BucketPoint(seen + [r], period, b)
            == if PeriodBucket(r.day, period) != b then p
               else p.(energyKWh := p.energyKWh + r.energyKWh,
                       readingCount := p.readingCount + r.readingCount,
                       backfilledCount := p.backfilledCount + r.backfilledCount)
  {
    hide PeriodBucket;
    assert (seen + [r])[..|seen|] == seen;
  }

  lemma NewBucketIsEmpty(rows: seq<DailyRow>, period: Period, b: Day)
    requires b !in Keys(rows, DailyBucket(period))
    ensures BucketPoint(rows, period, b) == EnergyPoint(b, 0.0, 0, 0)
  {
    GroupSumOfAbsentKey(rows, DailyBucket(period), DailyAmount, b);
  }

  method AddToBucket(byBucket: map<Day, EnergyPoint>, order: seq<Day>, r: DailyRow, period: Period, ghost seen: seq<DailyRow>)
      returns (byBucket': map<Day, EnergyPoint>, order': seq<Day>)
    requires order == Keys(seen, DailyBucket(period))
    requires byBucket == map b | b in order :: BucketPoint(seen, period, b)
    ensures order' == Keys(seen + [r], DailyBucket(period))
    ensures byBucket' == map b | b in order' :: BucketPoint(seen + [r], period, b)
  {
    byBucket', order' := byBucket, order;
    var bucket := PeriodBucket(r.day, period);
    hide PeriodBucket;
    KeysOfMore(seen, r, DailyBucket(period));
    forall b | b in order || b == bucket {
      PointOfMore(seen, r, period, b);
    }
    hide BucketPoint, Keys;
    if bucket !in byBucket {
      byBucket' := byBucket'[bucket := EnergyPoint(bucket, 0.0, 0, 0)];
      order' := order' + [bucket];
      NewBucketIsEmpty(seen, period, bucket);
    }
    var p := byBucket'[bucket];
    byBucket' := byBucket'[bucket := p.(energyKWh := p.energyKWh + r.energyKWh,
                                        readingCount := p.readingCount + r.readingCount,
                                        backfilledCount := p.backfilledCount + r.backfilledCount)];
  }

  /** countryBySite with the catch-all for a site that has no country. */
  function CountryOf(countryBySite: map<string, string>): RollupRow -> string {
    (r: RollupRow) =>
      if r.siteId in countryBySite && countryBySite[r.siteId] != "" then countryBySite[r.siteId] else "unknown"
  }

  function RowsOf(rows: seq<RollupRow>, countryBySite: map<string, string>, country: string): seq<RollupRow> {
    Where(rows, CountryOf(countryBySite), country)
  }

  method FleetEnergyByCountry(rows: seq<RollupRow>, countryBySite: map<string, string>, period: Period)
      returns (result: map<string, EnergySeries>)
    ensures forall c :: c in result <==> c in Keys(rows, CountryOf(countryBySite))
    ensures forall c :: c in result <==>
              exists i :: 0 <= i < |rows| && c == if rows[i].siteId in countryBySite && countryBySite[rows[i].siteId] != ""
                                                  then countryBySite[rows[i].siteId] else "unknown"
    ensures forall c :: c in result ==> result[c] == Bucketed(DailyRows(RowsOf(rows, countryBySite, c)), period)
  {
    hide DailyRows, Bucketed, RowsOf, DayRow, Keys;
    var byCountry, orderByCountry := SplitByCountry(rows, countryBySite);
    result := map[];
    var countries := byCountry.Keys;
    while countries != {}
      invariant countries <= byCountry.Keys
      invariant result.Keys == byCountry.Keys - countries
      invariant forall c :: c in result ==> result[c] == Bucketed(DailyRows(RowsOf(rows, countryBySite, c)), period)
      decreases countries
    {
      var country :| country in countries;
      var rowsForCountry := InOrder(byCountry[country], orderByCountry[country], RowsOf(rows, countryBySite, country));
      var series := BucketDailyRows(rowsForCountry, period);
      result := result[country := series];
      countries := countries - {country};
    }
    CountriesThatOccur(rows, countryBySite);
  }

  /** A country's rows are those of its own sites, each as often as it occurs; sites without a country go to "unknown". */
  lemma {:induction false} CountryHoldsItsOwnRows(rows: seq<RollupRow>, countryBySite: map<string, string>, country: string, r: RollupRow)
    ensures multiset(RowsOf(rows, countryBySite, country))[r]
            == if country == (if r.siteId in countryBySite && countryBySite[r.siteId] != "" then countryBySite[r.siteId] else "unknown")
               then multiset(rows)[r] else 0
    decreases |rows|
  {
    if rows != [] {
      var n := |rows| - 1;
      CountryHoldsItsOwnRows(rows[..n], countryBySite, country, r);
      assert rows == rows[..n] + [rows[n]];
    }
  }

  lemma CountriesThatOccur(rows: seq<RollupRow>, countryBySite: map<string, string>)
    ensures forall c :: c in Keys(rows, CountryOf(countryBySite)) <==>
              exists i :: 0 <= i < |rows| && c == if rows[i].siteId in countryBySite && countryBySite[rows[i].siteId] != ""
                                                  then countryBySite[rows[i].siteId] else "unknown"
  {
    KeysAreTheKeys(rows, CountryOf(countryBySite));
  }

  /** The first loop of FleetEnergyByCountry: per country, what CollapseByDay keeps for the whole fleet. */
  method SplitByCountry(rows: seq<RollupRow>, countryBySite: map<string, string>)
      returns (byCountry: map<string, map<Day, DailyRow>>, orderByCountry: map<string, seq<Day>>)
    ensures SplitSoFar(byCountry, orderByCountry, rows, countryBySite)
  {
    hide SplitSoFar;
    byCountry, orderByCountry := map[], map[];
    assert SplitSoFar(byCountry, orderByCountry, rows[..0], countryBySite) by {
      EmptySplit(countryBySite);
    }
    for i := 0 to |rows|
      invariant SplitSoFar(byCountry, orderByCountry, rows[..i], countryBySite)
    {
      byCountry, orderByCountry := AddToCountry(byCountry, orderByCountry, rows[i], countryBySite, rows[..i]);
      PrefixStep(rows, i);
    }
    assert rows[..|rows|] == rows;
  }

  ghost predicate SplitSoFar(byCountry: map<string, map<Day, DailyRow>>, orderByCountry: map<string, seq<Day>>,
                             rows: seq<RollupRow>, countryBySite: map<string, string>)
  {
    && byCountry.Keys == orderByCountry.Keys
    && (forall c :: c in byCountry <==> c in Keys(rows, CountryOf(countryBySite)))
    && (forall c :: c in byCountry ==> Accumulated(byCountry[c], orderByCountry[c], RowsOf(rows, countryBySite, c)))
  }

  lemma EmptySplit(countryBySite: map<string, string>)
    ensures SplitSoFar(map[], map[], [], countryBySite)
  {
  }

  method AddToCountry(byCountry: map<string, map<Day, DailyRow>>, orderByCountry: map<string, seq<Day>>, r: RollupRow,
                      countryBySite: map<string, string>, ghost seen: seq<RollupRow>)
      returns (byCountry': map<string, map<Day, DailyRow>>, orderByCountry': map<string, seq<Day>>)
    requires SplitSoFar(byCountry, orderByCountry, seen, countryBySite)
    ensures SplitSoFar(byCountry', orderByCountry', seen + [r], countryBySite)
  {
    var country := if r.siteId in countryBySite then countryBySite[r.siteId] else "";
    if country == "" {
      country := "unknown";
    }
    var dayMap, order := map[], [];
    if country in byCountry {
      dayMap, order := byCountry[country], orderByCountry[country];
    } else {
      WhereOfAbsentKey(seen, CountryOf(countryBySite), country);
    }
    dayMap, order := AddToDay(dayMap, order, r, RowsOf(seen, countryBySite, country));
    byCountry', orderByCountry' := byCountry[country := dayMap], orderByCountry[country := order];
    AddedToCountry(byCountry, orderByCountry, dayMap, order, r, countryBySite, seen);
  }

  lemma AddedToCountry(byCountry: map<string, map<Day, DailyRow>>, orderByCountry: map<string, seq<Day>>,
                       dayMap: map<Day, DailyRow>, order: seq<Day>, r: RollupRow, countryBySite: map<string, string>, seen: seq<RollupRow>)
    requires SplitSoFar(byCountry, orderByCountry, seen, countryBySite)
    requires Accumulated(dayMap, order, RowsOf(seen, countryBySite, CountryOf(countryBySite)(r)) + [r])
    ensures var country := CountryOf(countryBySite)(r);
            SplitSoFar(byCountry[country := dayMap], orderByCountry[country := order], seen + [r], countryBySite)
  {
    hide Accumulated;
    var country := CountryOf(countryBySite)(r);
    var byCountry' := byCountry[country := dayMap];
    var orderByCountry' := orderByCountry[country := order];
    assert (seen + [r])[..|seen|] == seen;
    forall c | c in byCountry'
      ensures Accumulated(byCountry'[c], orderByCountry'[c], RowsOf(seen + [r], countryBySite, c))
    {
      WhereAppend(seen, r, CountryOf(countryBySite), c);
    }
  }

  ghost predicate Accumulated(byDay: map<Day, DailyRow>, order: seq<Day>, rows: seq<RollupRow>) {
    && order == Keys(rows, RollupDay)
    && byDay == map d | d in order :: DayRow(rows, d)
  }

  /** The day rows in order, once every row has been added. */
  method InOrder(byDay: map<Day, DailyRow>, order: seq<Day>, ghost rows: seq<RollupRow>) returns (result: seq<DailyRow>)
    requires Accumulated(byDay, order, rows)
    ensures result == DailyRows(rows)
  {
    result := [];
    for i := 0 to |order|
      invariant result == DailyRows(rows)[..i]
    {
      result := result + [byDay[order[i]]];
    }
  }
}
