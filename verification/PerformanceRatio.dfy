/**
 Weather-adjusted performance ratio, per site and for the fleet
 (internal/registry/analytics.go).  Irradiance is keyed by day; fetching it is
 not part of this model.
 */
module PerformanceRatio {
  import opened Options
  import opened Calendar
  import opened Grouping
  import opened Merging
  import opened Rollup

  datatype RatioPoint = RatioPoint(periodStart: Day, energyKWh: real, expectedEnergyKWh: real, performanceRatioPct: real)

  datatype Site = Site(systemSizeKW: Option<real>, located: bool, dailyPoints: seq<EnergyPoint>, irradianceByDay: map<Day, real>)

  datatype RatioError = NoSystemSize | NoLocation

  function RatioPct(energy: real, expected: real): real {
    if expected > 0.0 then energy / expected * 100.0 else 0.0
  }

  function Expected(irradiance: real, systemSizeKW: real): real {
    irradiance * systemSizeKW
  }

  function Contribution(p: RatioPoint): Part {
    Part(p.periodStart, p.energyKWh, p.expectedEnergyKWh)
  }

  function Contributions(points: seq<RatioPoint>): seq<Part> {
    seq(|points|, i requires 0 <= i < |points| => Contribution(points[i]))
  }

  /** What a site's days contribute: only days with positive irradiance, each to the bucket it lies in. */
  function Retained(dailyPoints: seq<EnergyPoint>, irradianceByDay: map<Day, real>, systemSizeKW: real, period: Period): seq<Part> {
    if dailyPoints == [] then []
    else
      var before, p := Retained(dailyPoints[..|dailyPoints| - 1], irradianceByDay, systemSizeKW, period), dailyPoints[|dailyPoints| - 1];
      if p.periodStart in irradianceByDay && irradianceByDay[p.periodStart] > 0.0
      then before + [Part(PeriodBucket(p.periodStart, period), p.energyKWh, Expected(irradianceByDay[p.periodStart], systemSizeKW))]
      else before
  }

  /** A ratio series pools `parts` per period, in start order, and divides only the pooled sums. */
  ghost predicate IsRatioSeries(points: seq<RatioPoint>, parts: seq<Part>) {
    && IsMergeOf(Contributions(points), parts)
    && forall i :: 0 <= i < |points| ==>
         points[i].performanceRatioPct == RatioPct(points[i].energyKWh, points[i].expectedEnergyKWh)
  }

  method BucketPerformanceRatio(dailyPoints: seq<EnergyPoint>, irradianceByDay: map<Day, real>, systemSizeKW: real, period: Period)
      returns (points: seq<RatioPoint>, ghost parts: seq<Part>, ghost days: seq<nat>)
    ensures parts == Retained(dailyPoints, irradianceByDay, systemSizeKW, period) && IsRatioSeries(points, parts)
    ensures forall k :: 0 <= k < |points| ==>
              points[k].performanceRatioPct == if points[k].expectedEnergyKWh > 0.0
                                               then points[k].energyKWh / points[k].expectedEnergyKWh * 100.0 else 0.0
    ensures |days| == |parts| && forall j, k :: 0 <= j < k < |days| ==> days[j] < days[k]
    ensures forall i :: i in days <==> 0 <= i < |dailyPoints|
                                       && dailyPoints[i].periodStart in irradianceByDay && irradianceByDay[dailyPoints[i].periodStart] > 0.0
    ensures forall j :: 0 <= j < |days| ==>
              days[j] < |dailyPoints| && dailyPoints[days[j]].periodStart in irradianceByDay
              && var p := dailyPoints[days[j]];
                 parts[j].start == PeriodBucket(p.periodStart, period) && parts[j].energyKWh == p.energyKWh
                 && parts[j].second == irradianceByDay[p.periodStart] * systemSizeKW
  {
    hide Merged, PeriodBucket, IsRatioSeries, Expected;
    days := RetainedDays(dailyPoints, irradianceByDay, systemSizeKW, period);
    var byBucket: map<Day, Part>, order: seq<Day> := map[], [];
    ghost var seen: seq<Part> := [];
    assert Merged(byBucket, order, seen) by {
      NothingMerged();
    }
    for i := 0 to |dailyPoints|
      invariant seen == Retained(dailyPoints[..i], irradianceByDay, systemSizeKW, period)
      invariant Merged(byBucket, order, seen)
    {
      var p := dailyPoints[i];
      PrefixStep(dailyPoints, i);
      RetainedStep(dailyPoints, i, irradianceByDay, systemSizeKW, period);
      if p.periodStart !in irradianceByDay || irradianceByDay[p.periodStart] <= 0.0 {
        continue;
      }
      var part := Part(PeriodBucket(p.periodStart, period), p.energyKWh, Expected(irradianceByDay[p.periodStart], systemSizeKW));
      byBucket, order := AddPart(byBucket, order, part, seen);
      seen := seen + [part];
    }
    assert dailyPoints[..|dailyPoints|] == dailyPoints;
    parts := seen;
    points := RatioPoints(byBucket, order, seen);
  }

  /** The days retained, in order; each contributes its energy and, as expected, its irradiance times the system's size. */
  lemma {:induction false} RetainedDays(dailyPoints: seq<EnergyPoint>, irradianceByDay: map<Day, real>, systemSizeKW: real, period: Period)
      returns (days: seq<nat>)
    ensures var parts := Retained(dailyPoints, irradianceByDay, systemSizeKW, period);
            && |days| == |parts|
            && (forall j :: 0 <= j < |days| ==>
                  days[j] < |dailyPoints| && dailyPoints[days[j]].periodStart in irradianceByDay
                  && parts[j].start == PeriodBucket(dailyPoints[days[j]].periodStart, period)
                  && parts[j].energyKWh == dailyPoints[days[j]].energyKWh
                  && parts[j].second == irradianceByDay[dailyPoints[days[j]].periodStart] * systemSizeKW)
    ensures forall j, k :: 0 <= j < k < |days| ==> days[j] < days[k]
    ensures forall i :: i in days <==> 0 <= i < |dailyPoints|
                                       && dailyPoints[i].periodStart in irradianceByDay && irradianceByDay[dailyPoints[i].periodStart] > 0.0
    decreases |dailyPoints|
  {
    hide PeriodBucket;
    days := [];
    if dailyPoints != [] {
      var n := |dailyPoints| - 1;
      var p := dailyPoints[n];
      days := RetainedDays(dailyPoints[..n], irradianceByDay, systemSizeKW, period);
      if p.periodStart in irradianceByDay && irradianceByDay[p.periodStart] > 0.0 {
        days := days + [n];
      }
    }
  }

  lemma RetainedStep(dailyPoints: seq<EnergyPoint>, i: nat, irradianceByDay: map<Day, real>, systemSizeKW: real, period: Period)
    requires i < |dailyPoints|
    ensures var p, before := dailyPoints[i], Retained(dailyPoints[..i], irradianceByDay, systemSizeKW, period);
            Retained(dailyPoints[..i + 1], irradianceByDay, systemSizeKW, period)
            == if p.periodStart in irradianceByDay && irradianceByDay[p.periodStart] > 0.0
               then before + [Part(PeriodBucket(p.periodStart, period), p.energyKWh, Expected(irradianceByDay[p.periodStart], systemSizeKW))]
               else before
  {
    hide PeriodBucket;
    PrefixStep(dailyPoints, i);
  }

  /** The closing loop and sort, the same in both functions. */
  method RatioPoints(merged: map<Day, Part>, order: seq<Day>, ghost parts: seq<Part>) returns (points: seq<RatioPoint>)
    requires Merged(merged, order, parts)
    ensures IsRatioSeries(points, parts)
    ensures forall k :: 0 <= k < |points| ==>
              points[k].performanceRatioPct == if points[k].expectedEnergyKWh > 0.0
                                               then points[k].energyKWh / points[k].expectedEnergyKWh * 100.0 else 0.0
  {
    hide Merged, IsMergeOf;
    var result := InStartOrder(merged, order, parts);
    points := [];
    for i := 0 to |result|
      invariant Contributions(points) == result[..i]
      invariant forall j :: 0 <= j < i ==> points[j].performanceRatioPct == RatioPct(points[j].energyKWh, points[j].expectedEnergyKWh)
    {
      var pt := RatioPoint(result[i].start, result[i].energyKWh, result[i].second, 0.0);
      if pt.expectedEnergyKWh > 0.0 {
        pt := pt.(performanceRatioPct := pt.energyKWh / pt.expectedEnergyKWh * 100.0);
      }
      points := points + [pt];
    }
    assert result[..|result|] == result;
  }

  method SitePerformanceRatio(site: Site, period: Period) returns (r: Result<seq<RatioPoint>, RatioError>)
    ensures r == Err(NoSystemSize) <==> site.systemSizeKW.None? || site.systemSizeKW.value <= 0.0
    ensures r == Err(NoLocation) <==> site.systemSizeKW.Some? && site.systemSizeKW.value > 0.0 && !site.located
    ensures r.Ok? <==> Usable(site)
    ensures r.Ok? ==> IsRatioSeries(r.value, SiteParts(site, period))
  {
    if site.systemSizeKW.None? || site.systemSizeKW.value <= 0.0 {
      return Err(NoSystemSize);
    }
    if !site.located {
      return Err(NoLocation);
    }
    if |site.dailyPoints| == 0 {
      return Ok([]);
    }
    var points;
    ghost var parts, days;
    points, parts, days := BucketPerformanceRatio(site.dailyPoints, site.irradianceByDay, site.systemSizeKW.value, period);
    return Ok(points);
  }

  predicate Usable(s: Site) {
    s.systemSizeKW.Some? && s.systemSizeKW.value > 0.0 && s.located
  }

  function SiteParts(s: Site, period: Period): seq<Part> {
    if Usable(s) then Retained(s.dailyPoints, s.irradianceByDay, s.systemSizeKW.value, period) else []
  }

  /** Every retained (site, day) pair of the fleet; unusable sites contribute none. */
  function FleetParts(sites: seq<Site>, period: Period): seq<Part> {
    if sites == [] then [] else FleetParts(sites[..|sites| - 1], period) + SiteParts(sites[|sites| - 1], period)
  }

  /** The fleet's series pools every retained (site, day) pair, although it is merged from the sites' own series. */
  method FleetPerformanceRatio(sites: seq<Site>, period: Period) returns (r: Result<seq<RatioPoint>, RatioError>)
    ensures r.Err? <==> forall i :: 0 <= i < |sites| ==>
                          sites[i].systemSizeKW.None? || sites[i].systemSizeKW.value <= 0.0 || !sites[i].located
    ensures r.Err? ==> r.error == NoLocation
    ensures r.Ok? ==> IsRatioSeries(r.value, FleetParts(sites, period))
  {
    hide Merged, IsRatioSeries, SameGroups;
    var merged: map<Day, Part>, order: seq<Day>, usableSites := map[], [], 0;
    ghost var seen: seq<Part> := [];
    assert Merged(merged, order, seen) && SameGroups(seen, FleetParts([], period)) by {
      NothingMerged();
      ReflexiveGroups(seen);
    }
    for i := 0 to |sites|
      invariant usableSites >= 0 && (usableSites == 0 <==> forall j :: 0 <= j < i ==> !Usable(sites[j]))
      invariant Merged(merged, order, seen)
      invariant SameGroups(seen, FleetParts(sites[..i], period))
    {
      var s := sites[i];
      PrefixStep(sites, i);
      if s.systemSizeKW.None? || s.systemSizeKW.value <= 0.0 || !s.located {
        assert FleetParts(sites[..i + 1], period) == FleetParts(sites[..i], period);
        continue;
      }
      usableSites := usableSites + 1;
      var points := SitePerformanceRatio(s, period);
      merged, order := AddParts(merged, order, Contributions(points.value), seen);
      MergedSiteKeepsGroups(points.value, s, period);
      SameGroupsConcat(seen, Contributions(points.value), FleetParts(sites[..i], period), SiteParts(s, period));
      seen := seen + Contributions(points.value);
    }
    assert sites[..|sites|] == sites;
    if usableSites == 0 {
      return Err(NoLocation);
    }
    var points := RatioPoints(merged, order, seen);
    SeriesOfSameGroups(points, seen, FleetParts(sites, period));
    return Ok(points);
  }

  lemma ReflexiveGroups(a: seq<Part>)
    ensures SameGroups(a, a)
  {
  }

  lemma MergedSiteKeepsGroups(points: seq<RatioPoint>, s: Site, period: Period)
    requires IsRatioSeries(points, SiteParts(s, period))
    ensures SameGroups(Contributions(points), SiteParts(s, period))
  {
    MergeKeepsGroups(Contributions(points), SiteParts(s, period));
  }

  lemma SeriesOfSameGroups(points: seq<RatioPoint>, a: seq<Part>, b: seq<Part>)
    requires IsRatioSeries(points, a) && SameGroups(a, b)
    ensures IsRatioSeries(points, b)
  {
    MergeOfSameGroups(Contributions(points), a, b);
  }

  // ---------- ratios are means of their parts ----------

  predicate PositiveExpectation(parts: seq<Part>) {
    forall i :: 0 <= i < |parts| ==> parts[i].second > 0.0
  }

  lemma {:induction false} RetainedIsPositive(dailyPoints: seq<EnergyPoint>, irradianceByDay: map<Day, real>, systemSizeKW: real, period: Period)
    requires systemSizeKW > 0.0
    ensures PositiveExpectation(Retained(dailyPoints, irradianceByDay, systemSizeKW, period))
    decreases |dailyPoints|
  {
    hide PeriodBucket;
    if dailyPoints != [] {
      RetainedIsPositive(dailyPoints[..|dailyPoints| - 1], irradianceByDay, systemSizeKW, period);
    }
  }

  lemma {:induction false} FleetPartsArePositive(sites: seq<Site>, period: Period)
    ensures PositiveExpectation(FleetParts(sites, period))
    decreases |sites|
  {
    if sites != [] {
      FleetPartsArePositive(sites[..|sites| - 1], period);
      var s := sites[|sites| - 1];
      if Usable(s) {
        RetainedIsPositive(s.dailyPoints, s.irradianceByDay, s.systemSizeKW.value, period);
      }
    }
  }

  /** Scaling the bound `r`: a percentage above (below) 100 r means energy above (below) r times the expectation. */
  lemma RatioIsBound(energy: real, expected: real, r: real)
    requires expected > 0.0
    ensures RatioPct(energy, expected) <= r * 100.0 <==> energy <= r * expected
    ensures RatioPct(energy, expected) >= r * 100.0 <==> energy >= r * expected
  {
    var q := energy / expected;
    assert energy == q * expected;
    if q <= r {
      assert (r - q) * expected >= 0.0;
    }
    if q >= r {
      assert (q - r) * expected >= 0.0;
    }
    if q > r {
      assert (q - r) * expected > 0.0;
    }
    if q < r {
      assert (r - q) * expected > 0.0;
    }
  }

  predicate HasRatioAtMost(parts: seq<Part>, b: Day, pct: real) {
    exists i :: 0 <= i < |parts| && parts[i].start == b && RatioPct(parts[i].energyKWh, parts[i].second) <= pct
  }

  predicate HasRatioAtLeast(parts: seq<Part>, b: Day, pct: real) {
    exists i :: 0 <= i < |parts| && parts[i].start == b && RatioPct(parts[i].energyKWh, parts[i].second) >= pct
  }

  /**
   Each period's ratio lies between the smallest and the largest ratio of the
   parts pooled into it: days of a site, or retained (site, day) pairs of the fleet.
   */
  lemma RatioIsBetweenItsParts(points: seq<RatioPoint>, parts: seq<Part>, k: nat)
    requires IsRatioSeries(points, parts) && PositiveExpectation(parts) && k < |points|
    ensures HasRatioAtMost(parts, points[k].periodStart, points[k].performanceRatioPct)
    ensures HasRatioAtLeast(parts, points[k].periodStart, points[k].performanceRatioPct)
  {
    var b, pct := points[k].periodStart, points[k].performanceRatioPct;
    assert Contributions(points)[k] == Contribution(points[k]);
    assert Contribution(points[k]) == PartOf(parts, b) && b in Keys(parts, PartStart);
    var r := pct / 100.0;
    if !HasRatioAtMost(parts, b, pct) {
      StrictlyPooled(parts, b, r, true);
      assert false;
    }
    if !HasRatioAtLeast(parts, b, pct) {
      StrictlyPooled(parts, b, r, false);
      assert false;
    }
  }

  /** If all parts lie strictly on one side of `r`, the pooled ratio does too. */
  lemma {:induction false} StrictlyPooled(parts: seq<Part>, b: Day, r: real, above: bool)
    requires PositiveExpectation(parts)
    requires above ==> !HasRatioAtMost(parts, b, r * 100.0)
    requires !above ==> !HasRatioAtLeast(parts, b, r * 100.0)
    ensures var p := PartOf(parts, b);
            && (b in Keys(parts, PartStart) ==> p.second > 0.0)
            && (b !in Keys(parts, PartStart) ==> p.second == p.energyKWh == 0.0)
            && (b in Keys(parts, PartStart) ==>
                  if above then RatioPct(p.energyKWh, p.second) > r * 100.0 else RatioPct(p.energyKWh, p.second) < r * 100.0)
    decreases |parts|
  {
    if parts != [] {
      var front, last := parts[..|parts| - 1], parts[|parts| - 1];
      assert forall i :: 0 <= i < |front| ==> front[i] == parts[i];
      StrictlyPooled(front, b, r, above);
      if last.start == b {
        var x, y := PartOf(front, b), last;
        RatioIsBound(y.energyKWh, y.second, r);
        if b in Keys(front, PartStart) {
          RatioIsBound(x.energyKWh, x.second, r);
        }
        RatioIsBound(x.energyKWh + y.energyKWh, x.second + y.second, r);
        assert r * (x.second + y.second) == r * x.second + r * y.second;
      }
    }
  }

  lemma {:induction false} PooledIsPositive(parts: seq<Part>, b: Day)
    requires PositiveExpectation(parts)
    ensures PartOf(parts, b).second >= 0.0
    ensures b in Keys(parts, PartStart) ==> PartOf(parts, b).second > 0.0
    decreases |parts|
  {
    if parts != [] {
      assert forall i :: 0 <= i < |parts| - 1 ==> parts[..|parts| - 1][i] == parts[i];
      PooledIsPositive(parts[..|parts| - 1], b);
    }
  }

  /** The contributions of the sites' own series. */
  function SeriesParts(series: seq<seq<RatioPoint>>): seq<Part> {
    if series == [] then [] else SeriesParts(series[..|series| - 1]) + Contributions(series[|series| - 1])
  }

  /** Merging the sites' series and pooling the (site, day) pairs meet in the same periods and sums. */
  lemma {:induction false} SeriesPoolTheFleet(sites: seq<Site>, series: seq<seq<RatioPoint>>, period: Period)
    requires |series| == |sites|
    requires forall i :: 0 <= i < |sites| ==> IsRatioSeries(series[i], SiteParts(sites[i], period))
    ensures SameGroups(SeriesParts(series), FleetParts(sites, period)) && PositiveExpectation(SeriesParts(series))
    decreases |sites|
  {
    hide SameGroups, IsRatioSeries;
    if sites == [] {
      ReflexiveGroups([]);
    } else {
      var n := |sites| - 1;
      SeriesPoolTheFleet(sites[..n], series[..n], period);
      MergedSiteKeepsGroups(series[n], sites[n], period);
      SameGroupsConcat(SeriesParts(series[..n]), Contributions(series[n]), FleetParts(sites[..n], period), SiteParts(sites[n], period));
      SiteSeriesIsPositive(series[n], sites[n], period);
    }
  }

  lemma SiteSeriesIsPositive(points: seq<RatioPoint>, s: Site, period: Period)
    requires IsRatioSeries(points, SiteParts(s, period))
    ensures PositiveExpectation(Contributions(points))
  {
    var parts := SiteParts(s, period);
    if Usable(s) {
      RetainedIsPositive(s.dailyPoints, s.irradianceByDay, s.systemSizeKW.value, period);
    }
    forall i | 0 <= i < |points| ensures Contributions(points)[i].second > 0.0 {
      var part := Contributions(points)[i];
      assert part.start in Keys(parts, PartStart) && part == PartOf(parts, part.start);
      PooledIsPositive(parts, part.start);
    }
  }

  /** The fleet's ratio of a period lies between the smallest and the largest ratio of its sites in that period. */
  lemma FleetRatioIsBetweenItsSites(points: seq<RatioPoint>, sites: seq<Site>, series: seq<seq<RatioPoint>>, period: Period, k: nat)
    requires |series| == |sites|
    requires forall i :: 0 <= i < |sites| ==> IsRatioSeries(series[i], SiteParts(sites[i], period))
    requires IsRatioSeries(points, FleetParts(sites, period)) && k < |points|
    ensures HasRatioAtMost(SeriesParts(series), points[k].periodStart, points[k].performanceRatioPct)
    ensures HasRatioAtLeast(SeriesParts(series), points[k].periodStart, points[k].performanceRatioPct)
  {
    SeriesPoolTheFleet(sites, series, period);
    SeriesOfSameGroups(points, FleetParts(sites, period), SeriesParts(series)) by {
      assert SameGroups(FleetParts(sites, period), SeriesParts(series));
    }
    RatioIsBetweenItsParts(points, SeriesParts(series), k);
  }
}
