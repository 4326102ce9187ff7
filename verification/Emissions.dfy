/** CO2 avoided, with factors that change over time and differ by country (internal/registry/emissions.go). */
module Emissions {
  import opened Options
  import opened Ordering
  import opened Calendar
  import opened Grouping
  import opened Merging
  import opened Rollup

  /** Nanoseconds since 1970-01-01 UTC. */
  type Instant = int

  datatype Factor = Factor(id: int, kgCO2PerKWh: real, country: string, source: string, effectiveFrom: Instant)

  datatype EmissionPoint = EmissionPoint(periodStart: Day, energyKWh: real, kgCO2: real)

  datatype CountryEmissions = CountryEmissions(country: string, factor: Option<Factor>, cumulativeTonnesCO2: real, unconfigured: bool)

  datatype EmissionsSeries = EmissionsSeries(
    factor: Option<Factor>,
    points: seq<EmissionPoint>,
    cumulativeTonnesCO2: real,
    countryBreakdown: seq<CountryEmissions>)

  datatype EmissionsError = NoEmissionFactor

  function Midnight(d: Day): Instant {
    d * 86_400_000_000_000
  }

  /** Oldest first, the order in which the complete factor history is read. */
  predicate Ascending(factors: seq<Factor>) {
    forall i, j :: 0 <= i < j < |factors| ==> factors[i].effectiveFrom <= factors[j].effectiveFrom
  }

  /** The latest factor in force at `asOf`; before all of them, the oldest. */
  function InEffect(factors: seq<Factor>, asOf: Instant): Factor
    requires factors != []
  {
    var n := |factors| - 1;
    if n == 0 || factors[n].effectiveFrom <= asOf then factors[n] else InEffect(factors[..n], asOf)
  }

  method FactorAsOf(factors: seq<Factor>, asOf: Instant) returns (best: Factor)
    requires factors != [] && Ascending(factors)
    ensures best == InEffect(factors, asOf)
    ensures exists i :: 0 <= i < |factors| && best == factors[i] && (i == 0 || factors[i].effectiveFrom <= asOf)
                        && forall j :: i < j < |factors| ==> factors[j].effectiveFrom > asOf
  {
    best := factors[0];
    var i := 0;
    while i < |factors|
      invariant 0 <= i <= |factors|
      invariant best == if i == 0 then factors[0] else factors[i - 1]
      invariant forall j :: 0 <= j < i ==> factors[j].effectiveFrom <= asOf
    {
      if factors[i].effectiveFrom > asOf {
        break;
      }
      best := factors[i];
      i := i + 1;
    }
    InEffectFrom(factors, asOf, i);
    assert best == factors[if i == 0 then 0 else i - 1];
  }

  /** `i` splits the factors into those in force and those yet to come. */
  lemma {:induction false} InEffectFrom(factors: seq<Factor>, asOf: Instant, i: nat)
    requires factors != [] && i <= |factors|
    requires forall j :: 0 <= j < i ==> factors[j].effectiveFrom <= asOf
    requires forall j :: i <= j < |factors| ==> factors[j].effectiveFrom > asOf
    ensures InEffect(factors, asOf) == if i == 0 then factors[0] else factors[i - 1]
    decreases |factors|
  {
    if i < |factors| && |factors| > 1 {
      InEffectFrom(factors[..|factors| - 1], asOf, i);
    }
  }

  /** Where a factor effective from `t` goes: after all that take effect no later. */
  function PlaceOf(factors: seq<Factor>, t: Instant): (i: nat)
    ensures i <= |factors|
  {
    if factors == [] then 0
    else if factors[|factors| - 1].effectiveFrom <= t then |factors| else PlaceOf(factors[..|factors| - 1], t)
  }

  lemma {:induction false} PlaceSplits(factors: seq<Factor>, t: Instant)
    requires Ascending(factors)
    ensures var i := PlaceOf(factors, t);
            && (forall j :: 0 <= j < i ==> factors[j].effectiveFrom <= t)
            && (forall j :: i <= j < |factors| ==> factors[j].effectiveFrom > t)
    decreases |factors|
  {
    if factors != [] && factors[|factors| - 1].effectiveFrom > t {
      PlaceSplits(factors[..|factors| - 1], t);
    }
  }

  /** The history once `f` has been recorded. */
  function Recorded(factors: seq<Factor>, f: Factor): seq<Factor> {
    var i := PlaceOf(factors, f.effectiveFrom);
    factors[..i] + [f] + factors[i..]
  }

  /**
   Recording a factor, at any date, changes exactly the instants from its own
   effective date up to the next factor's, and, when it becomes the oldest
   factor on record, the instants before every factor as well.
   */
  lemma RecordingChangesItsOwnInterval(factors: seq<Factor>, f: Factor, asOf: Instant)
    requires factors != [] && Ascending(factors)
    ensures Ascending(Recorded(factors, f))
    ensures var i := PlaceOf(factors, f.effectiveFrom);
            InEffect(Recorded(factors, f), asOf)
            == if (i == 0 || f.effectiveFrom <= asOf) && (i == |factors| || asOf < factors[i].effectiveFrom)
               then f else InEffect(factors, asOf)
  {
    var i := PlaceOf(factors, f.effectiveFrom);
    RecordedShape(factors, f);
    PlaceSplits(factors, f.effectiveFrom);
    var after := Recorded(factors, f);
    var k := PlaceOf(factors, asOf);
    PlaceSplits(factors, asOf);
    hide InEffect, PlaceOf, Recorded;
    InEffectFrom(factors, asOf, k);
    if f.effectiveFrom <= asOf {
      assert k >= i by {
        assert i > 0 ==> factors[i - 1].effectiveFrom <= asOf;
      }
      InEffectFrom(after, asOf, k + 1);
    } else {
      assert k <= i;
      InEffectFrom(after, asOf, k);
    }
  }

  lemma RecordedShape(factors: seq<Factor>, f: Factor)
    requires Ascending(factors)
    ensures var i, after := PlaceOf(factors, f.effectiveFrom), Recorded(factors, f);
            && |after| == |factors| + 1
            && (forall j :: 0 <= j < |after| ==> after[j] == if j < i then factors[j] else if j == i then f else factors[j - 1])
            && Ascending(after)
  {
    PlaceSplits(factors, f.effectiveFrom);
    hide PlaceOf;
  }

  /** The factor in effect at earlier instants stays the same exactly when the new factor is not older than all on record. */
  lemma RecordingKeepsThePast(factors: seq<Factor>, f: Factor)
    requires factors != [] && Ascending(factors) && f !in factors
    ensures (forall asOf :: asOf < f.effectiveFrom ==> InEffect(Recorded(factors, f), asOf) == InEffect(factors, asOf))
            <==> factors[0].effectiveFrom <= f.effectiveFrom
  {
    PlaceSplits(factors, f.effectiveFrom);
    forall asOf | asOf < f.effectiveFrom && factors[0].effectiveFrom <= f.effectiveFrom
      ensures InEffect(Recorded(factors, f), asOf) == InEffect(factors, asOf)
    {
      RecordingChangesItsOwnInterval(factors, f, asOf);
    }
    if factors[0].effectiveFrom > f.effectiveFrom {
      var asOf := f.effectiveFrom - 1;
      RecordingChangesItsOwnInterval(factors, f, asOf);
      InEffectIsOneOf(factors, asOf);
    }
  }

  lemma {:induction false} InEffectIsOneOf(factors: seq<Factor>, asOf: Instant)
    requires factors != []
    ensures InEffect(factors, asOf) in factors
    decreases |factors|
  {
    var n := |factors| - 1;
    if n > 0 && factors[n].effectiveFrom > asOf {
      InEffectIsOneOf(factors[..n], asOf);
    }
  }

  // ---------- one series ----------

  function Kg(energyKWh: real, f: Factor): real {
    energyKWh * f.kgCO2PerKWh
  }

  function PointOf(factors: seq<Factor>, p: EnergyPoint): EmissionPoint
    requires factors != []
  {
    EmissionPoint(p.periodStart, p.energyKWh, Kg(p.energyKWh, InEffect(factors, Midnight(p.periodStart))))
  }

  function EmissionPart(p: EmissionPoint): Part {
    Part(p.periodStart, p.energyKWh, p.kgCO2)
  }

  function Parts(points: seq<EmissionPoint>): seq<Part> {
    seq(|points|, i requires 0 <= i < |points| => EmissionPart(points[i]))
  }

  lemma BeforeAllFactors(factors: seq<Factor>, asOf: Instant)
    requires factors != [] && Ascending(factors) && asOf < factors[0].effectiveFrom
    ensures InEffect(factors, asOf) == factors[0]
  {
    PlaceSplits(factors, asOf);
    InEffectFrom(factors, asOf, PlaceOf(factors, asOf));
  }

  /** The points of earlier periods keep their CO2. */
  ghost predicate KeepsEarlierFigures(factors: seq<Factor>, later: seq<Factor>, from: Instant)
    requires factors != [] && later != []
  {
    forall p: EnergyPoint :: Midnight(p.periodStart) < from ==> PointOf(later, p) == PointOf(factors, p)
  }

  function DayBefore(t: Instant): (d: Day)
    ensures Midnight(d) < t
  {
    t / 86_400_000_000_000 - 1
  }

  /**
   Past figures stay reproducible exactly when the new factor is not older than every
   factor on record, or says the same as the oldest of them.
   */
  lemma RecordingKeepsPastFigures(factors: seq<Factor>, f: Factor)
    requires factors != [] && Ascending(factors)
    ensures KeepsEarlierFigures(factors, Recorded(factors, f), f.effectiveFrom)
            <==> (factors[0].effectiveFrom <= f.effectiveFrom || f.kgCO2PerKWh == factors[0].kgCO2PerKWh)
  {
    PlaceSplits(factors, f.effectiveFrom);
    if factors[0].effectiveFrom <= f.effectiveFrom || f.kgCO2PerKWh == factors[0].kgCO2PerKWh {
      forall p: EnergyPoint | Midnight(p.periodStart) < f.effectiveFrom
        ensures PointOf(Recorded(factors, f), p) == PointOf(factors, p)
      {
        EarlierFigure(factors, f, p);
      }
    } else {
      var p := EnergyPoint(DayBefore(f.effectiveFrom), 1.0, 0, 0);
      EarlierFigure(factors, f, p);
      assert Kg(1.0, f) != Kg(1.0, factors[0]);
      assert PointOf(Recorded(factors, f), p) != PointOf(factors, p);
    }
  }

  lemma EarlierFigure(factors: seq<Factor>, f: Factor, p: EnergyPoint)
    requires factors != [] && Ascending(factors) && Midnight(p.periodStart) < f.effectiveFrom
    ensures factors[0].effectiveFrom <= f.effectiveFrom ==> PointOf(Recorded(factors, f), p) == PointOf(factors, p)
    ensures factors[0].effectiveFrom > f.effectiveFrom ==>
              && PointOf(factors, p).kgCO2 == Kg(p.energyKWh, factors[0])
              && PointOf(Recorded(factors, f), p).kgCO2 == Kg(p.energyKWh, f)
  {
    var asOf := Midnight(p.periodStart);
    PlaceSplits(factors, f.effectiveFrom);
    RecordingChangesItsOwnInterval(factors, f, asOf);
    if factors[0].effectiveFrom > f.effectiveFrom {
      BeforeAllFactors(factors, asOf);
    }
  }

  /** Every period of `energy` at the factor in force when it started. */
  function PointsOf(factors: seq<Factor>, energy: seq<EnergyPoint>): seq<EmissionPoint>
    requires factors != []
  {
    seq(|energy|, i requires 0 <= i < |energy| => PointOf(factors, energy[i]))
  }

  function KgOf(points: seq<EmissionPoint>): real {
    Sum(Parts(points), PartAmount).second
  }

  function Tonnes(kg: real): real {
    kg / 1000.0
  }

  lemma TonnesAreLinear(a: real, b: real)
    ensures Tonnes(a) + Tonnes(b) == Tonnes(a + b) && 1000.0 * Tonnes(a) == a && Tonnes(0.0) == 0.0
  {
  }

  method ToSeries(currentFactor: Factor, factors: seq<Factor>, energy: EnergySeries) returns (series: EmissionsSeries)
    requires factors != [] && Ascending(factors)
    ensures series.factor == Some(currentFactor) && series.countryBreakdown == []
    ensures series.points == PointsOf(factors, energy.points)
    ensures |series.points| == |energy.points|
    ensures forall i :: 0 <= i < |series.points| ==>
              && series.points[i].periodStart == energy.points[i].periodStart && series.points[i].energyKWh == energy.points[i].energyKWh
              && series.points[i].kgCO2
                 == energy.points[i].energyKWh * InEffect(factors, energy.points[i].periodStart * 86_400_000_000_000).kgCO2PerKWh
    ensures series.cumulativeTonnesCO2 == Tonnes(KgOf(series.points))
  {
    hide InEffect;
    var points: seq<EmissionPoint> := [];
    var cumulativeKg := 0.0;
    for i := 0 to |energy.points|
      invariant points == PointsOf(factors, energy.points)[..i]
      invariant cumulativeKg == KgOf(points)
    {
      var p := energy.points[i];
      var factor := FactorAsOf(factors, Midnight(p.periodStart));
      var kg := Kg(p.energyKWh, factor);
      var point := EmissionPoint(p.periodStart, p.energyKWh, kg);
      KgOfMore(points, point);
      cumulativeKg := cumulativeKg + kg;
      points := points + [point];
    }
    series := EmissionsSeries(Some(currentFactor), points, Tonnes(cumulativeKg), []);
  }

  /** The kg of a series add up. */
  lemma KgOfMore(points: seq<EmissionPoint>, p: EmissionPoint)
    ensures KgOf([]) == 0.0 && KgOf(points + [p]) == KgOf(points) + p.kgCO2
  {
    SumAppend(Parts(points), EmissionPart(p), PartAmount);
    assert Parts(points + [p]) == Parts(points) + [EmissionPart(p)];
  }

  /**
   A series recomputed after recording `f` differs only in the periods that
   start in the interval `f` governs; in particular, unless `f` is the oldest
   factor, every point whose period starts before `f` takes effect is unchanged.
   */
  lemma RecordingKeepsEarlierPoints(factors: seq<Factor>, f: Factor, energy: seq<EnergyPoint>, i: nat)
    requires factors != [] && Ascending(factors) && i < |energy|
    requires factors[0].effectiveFrom <= f.effectiveFrom && Midnight(energy[i].periodStart) < f.effectiveFrom
    ensures PointsOf(Recorded(factors, f), energy)[i] == PointsOf(factors, energy)[i]
  {
    hide InEffect, Recorded;
    PlaceSplits(factors, f.effectiveFrom);
    RecordingChangesItsOwnInterval(factors, f, Midnight(energy[i].periodStart));
  }

  // ---------- site and fleet ----------

  predicate Configured(country: string, factorsOf: map<string, seq<Factor>>) {
    country in factorsOf && factorsOf[country] != []
  }

  predicate Histories(factorsOf: map<string, seq<Factor>>) {
    forall c :: c in factorsOf ==> Ascending(factorsOf[c])
  }

  /** The most recently effective factor, if any has been set. */
  function Current(country: string, factorsOf: map<string, seq<Factor>>): Option<Factor> {
    if Configured(country, factorsOf) then Some(factorsOf[country][|factorsOf[country]| - 1]) else None
  }

  method SiteEmissions(country: string, energy: EnergySeries, factorsOf: map<string, seq<Factor>>)
      returns (r: Result<EmissionsSeries, EmissionsError>)
    requires Histories(factorsOf)
    ensures r.Ok? <==> country in factorsOf && factorsOf[country] != []
    ensures r.Ok? ==>
              && r.value.factor == Some(factorsOf[country][|factorsOf[country]| - 1])
              && r.value.points == PointsOf(factorsOf[country], energy.points)
              && 1000.0 * r.value.cumulativeTonnesCO2 == KgOf(r.value.points)
  {
    var factor := Current(country, factorsOf);
    if factor.None? {
      return Err(NoEmissionFactor);
    }
    var series := ToSeries(factor.value, factorsOf[country], energy);
    TonnesAreLinear(KgOf(series.points), 0.0);
    return Ok(series);
  }

  /** What a country contributes to the fleet: nothing while it is unconfigured. */
  function CountryPoints(country: string, byCountry: map<string, EnergySeries>, factorsOf: map<string, seq<Factor>>): seq<EmissionPoint> {
    if Configured(country, factorsOf) && country in byCountry then PointsOf(factorsOf[country], byCountry[country].points) else []
  }

  function FleetParts(countries: seq<string>, byCountry: map<string, EnergySeries>, factorsOf: map<string, seq<Factor>>): seq<Part> {
    if countries == [] then []
    else
      FleetParts(countries[..|countries| - 1], byCountry, factorsOf)
      + Parts(CountryPoints(countries[|countries| - 1], byCountry, factorsOf))
  }

  function CountryLine(country: string, byCountry: map<string, EnergySeries>, factorsOf: map<string, seq<Factor>>): CountryEmissions {
    CountryEmissions(country, Current(country, factorsOf), Tonnes(KgOf(CountryPoints(country, byCountry, factorsOf))),
                     !Configured(country, factorsOf))
  }

  function Breakdown(countries: seq<string>, byCountry: map<string, EnergySeries>, factorsOf: map<string, seq<Factor>>): seq<CountryEmissions> {
    seq(|countries|, i requires 0 <= i < |countries| => CountryLine(countries[i], byCountry, factorsOf))
  }

  /** A configured country's line carries its newest factor and its points' CO2; an unconfigured one's carries none. */
  lemma BreakdownLines(countries: seq<string>, byCountry: map<string, EnergySeries>, factorsOf: map<string, seq<Factor>>, i: nat)
    requires i < |countries| && countries[i] in byCountry
    ensures var c, line := countries[i], Breakdown(countries, byCountry, factorsOf)[i];
            && line.country == c && (line.unconfigured <==> c !in factorsOf || factorsOf[c] == [])
            && (!line.unconfigured ==>
                  && line.factor == Some(factorsOf[c][|factorsOf[c]| - 1])
                  && 1000.0 * line.cumulativeTonnesCO2 == KgOf(PointsOf(factorsOf[c], byCountry[c].points)))
            && (line.unconfigured ==> line.factor == None && line.cumulativeTonnesCO2 == 0.0)
  {
    TonnesAreLinear(KgOf(CountryPoints(countries[i], byCountry, factorsOf)), 0.0);
    hide PointsOf;
    assert KgOf([]) == 0.0;
  }

  function TotalTonnes(lines: seq<CountryEmissions>): real {
    if lines == [] then 0.0 else TotalTonnes(lines[..|lines| - 1]) + lines[|lines| - 1].cumulativeTonnesCO2
  }

  predicate NoneConfigured(countries: seq<string>, factorsOf: map<string, seq<Factor>>) {
    forall i :: 0 <= i < |countries| ==> !Configured(countries[i], factorsOf)
  }

  /**
   The fleet's points merge the configured countries' points per period, in start
   order; its total is the breakdown's total, and also what its points add up to.
   */
  method FleetEmissions(byCountry: map<string, EnergySeries>, factorsOf: map<string, seq<Factor>>)
      returns (r: Result<EmissionsSeries, EmissionsError>, ghost countries: seq<string>)
    requires Histories(factorsOf)
    ensures SortedStrings(countries) && forall c :: c in countries <==> c in byCountry
    ensures r.Err? <==> countries != [] && NoneConfigured(countries, factorsOf)
    ensures r.Ok? ==>
              var lines := Breakdown(countries, byCountry, factorsOf);
              && IsMergeOf(Parts(r.value.points), FleetParts(countries, byCountry, factorsOf))
              && r.value.cumulativeTonnesCO2 == TotalTonnes(lines)
              && 1000.0 * r.value.cumulativeTonnesCO2 == KgOf(r.value.points)
              && (if |countries| == 1 && !lines[0].unconfigured
                  then r.value.factor == lines[0].factor && r.value.countryBreakdown == []
                  else r.value.factor == None && r.value.countryBreakdown == lines)
  {
    hide Progress, IsMergeOf, Breakdown, FleetParts, KgOf;
    var names := SortSet(byCountry.Keys);
    countries := names;
    var merged: map<Day, Part>, order: seq<Day> := map[], [];
    var breakdown: seq<CountryEmissions> := [];
    var totalTonnes, configuredCount := 0.0, 0;
    NothingProgressed(names, byCountry, factorsOf);
    for i := 0 to |names|
      invariant Progress(names, i, byCountry, factorsOf, merged, order, breakdown, totalTonnes, configuredCount)
    {
      assert names[i] in names;
      merged, order, breakdown, totalTonnes, configuredCount :=
        AddCountry(names, i, byCountry, factorsOf, merged, order, breakdown, totalTonnes, configuredCount);
    }
    AllProgressed(names, byCountry, factorsOf, merged, order, breakdown, totalTonnes, configuredCount);
    if |names| > 0 && configuredCount == 0 {
      return Err(NoEmissionFactor), names;
    }
    var points := FleetPoints(merged, order, FleetParts(names, byCountry, factorsOf));
    TotalsAgree(points, names, byCountry, factorsOf);
    if |names| == 1 && !breakdown[0].unconfigured {
      return Ok(EmissionsSeries(breakdown[0].factor, points, totalTonnes, [])), names;
    }
    return Ok(EmissionsSeries(None, points, totalTonnes, breakdown)), names;
  }

  /** What the loop has after the first `i` countries. */
  ghost predicate Progress(countries: seq<string>, i: nat, byCountry: map<string, EnergySeries>, factorsOf: map<string, seq<Factor>>,
                           merged: map<Day, Part>, order: seq<Day>, breakdown: seq<CountryEmissions>, totalTonnes: real, configuredCount: int)
  {
    && i <= |countries|
    && Merged(merged, order, FleetParts(countries[..i], byCountry, factorsOf))
    && breakdown == Breakdown(countries, byCountry, factorsOf)[..i]
    && totalTonnes == TotalTonnes(breakdown)
    && configuredCount >= 0 && (configuredCount == 0 <==> NoneConfigured(countries[..i], factorsOf))
  }

  lemma NothingProgressed(countries: seq<string>, byCountry: map<string, EnergySeries>, factorsOf: map<string, seq<Factor>>)
    ensures Progress(countries, 0, byCountry, factorsOf, map[], [], [], 0.0, 0)
  {
    NothingMerged();
  }

  lemma AllProgressed(countries: seq<string>, byCountry: map<string, EnergySeries>, factorsOf: map<string, seq<Factor>>,
                      merged: map<Day, Part>, order: seq<Day>, breakdown: seq<CountryEmissions>, totalTonnes: real, configuredCount: int)
    requires Progress(countries, |countries|, byCountry, factorsOf, merged, order, breakdown, totalTonnes, configuredCount)
    ensures Merged(merged, order, FleetParts(countries, byCountry, factorsOf))
    ensures |breakdown| == |countries| && breakdown == Breakdown(countries, byCountry, factorsOf)
    ensures totalTonnes == TotalTonnes(breakdown)
    ensures configuredCount == 0 <==> NoneConfigured(countries, factorsOf)
  {
    assert countries[..|countries|] == countries;
    assert Breakdown(countries, byCountry, factorsOf)[..|countries|] == Breakdown(countries, byCountry, factorsOf);
  }

  method FleetPoints(merged: map<Day, Part>, order: seq<Day>, ghost parts: seq<Part>) returns (points: seq<EmissionPoint>)
    requires Merged(merged, order, parts)
    ensures IsMergeOf(Parts(points), parts)
  {
    hide Merged, IsMergeOf;
    var result := InStartOrder(merged, order, parts);
    points := [];
    for i := 0 to |result|
      invariant Parts(points) == result[..i]
    {
      points := points + [EmissionPoint(result[i].start, result[i].energyKWh, result[i].second)];
    }
    assert result[..|result|] == result;
  }

  /** One pass of the loop over countries. */
  method AddCountry(countries: seq<string>, i: nat, byCountry: map<string, EnergySeries>, factorsOf: map<string, seq<Factor>>,
                    merged: map<Day, Part>, order: seq<Day>, breakdown: seq<CountryEmissions>, totalTonnes: real, configuredCount: int)
      returns (merged': map<Day, Part>, order': seq<Day>, breakdown': seq<CountryEmissions>, totalTonnes': real, configuredCount': int)
    requires Histories(factorsOf) && i < |countries| && countries[i] in byCountry
    requires Progress(countries, i, byCountry, factorsOf, merged, order, breakdown, totalTonnes, configuredCount)
    ensures Progress(countries, i + 1, byCountry, factorsOf, merged', order', breakdown', totalTonnes', configuredCount')
  {
    hide Merged, CountryLine, CountryPoints, Parts, Breakdown, TotalTonnes, NoneConfigured, FleetParts;
    var line;
    merged', order', line := PriceCountry(countries[i], byCountry, factorsOf, merged, order, FleetParts(countries[..i], byCountry, factorsOf));
    configuredCount' := if line.unconfigured then configuredCount else configuredCount + 1;
    breakdown' := breakdown + [line];
    totalTonnes' := totalTonnes + line.cumulativeTonnesCO2;
    CountryProgressed(countries, i, byCountry, factorsOf, merged', order', breakdown, configuredCount, configuredCount');
  }

  /** The country's line, and its points merged if it has a factor; `seen` is what was merged before. */
  method PriceCountry(country: string, byCountry: map<string, EnergySeries>, factorsOf: map<string, seq<Factor>>,
                      merged: map<Day, Part>, order: seq<Day>, ghost seen: seq<Part>)
      returns (merged': map<Day, Part>, order': seq<Day>, line: CountryEmissions)
    requires Histories(factorsOf) && country in byCountry && Merged(merged, order, seen)
    ensures Merged(merged', order', seen + Parts(CountryPoints(country, byCountry, factorsOf)))
    ensures line == CountryLine(country, byCountry, factorsOf) && line.unconfigured == !Configured(country, factorsOf)
  {
    hide Merged;
    merged', order' := merged, order;
    var factor := Current(country, factorsOf);
    if factor.None? {
      line := CountryEmissions(country, None, 0.0, true);
      assert seen + Parts([]) == seen;
      assert KgOf([]) == 0.0;
      TonnesAreLinear(0.0, 0.0);
    } else {
      var series := ToSeries(factor.value, factorsOf[country], byCountry[country]);
      line := CountryEmissions(country, factor, series.cumulativeTonnesCO2, false);
      merged', order' := AddParts(merged, order, Parts(series.points), seen);
    }
  }

  lemma CountryProgressed(countries: seq<string>, i: nat, byCountry: map<string, EnergySeries>, factorsOf: map<string, seq<Factor>>,
                          merged: map<Day, Part>, order: seq<Day>, breakdown: seq<CountryEmissions>, before: int, after: int)
    requires i < |countries|
    requires Merged(merged, order, FleetParts(countries[..i], byCountry, factorsOf) + Parts(CountryPoints(countries[i], byCountry, factorsOf)))
    requires breakdown == Breakdown(countries, byCountry, factorsOf)[..i]
    requires before >= 0 && (before == 0 <==> NoneConfigured(countries[..i], factorsOf))
    requires after == if Configured(countries[i], factorsOf) then before + 1 else before
    ensures var line := CountryLine(countries[i], byCountry, factorsOf);
            Progress(countries, i + 1, byCountry, factorsOf, merged, order, breakdown + [line],
                     TotalTonnes(breakdown) + line.cumulativeTonnesCO2, after)
  {
    hide Merged, CountryLine, CountryPoints;
    PrefixStep(countries, i);
    ConfiguredSoFar(countries, i, factorsOf);
    var line := CountryLine(countries[i], byCountry, factorsOf);
    assert (breakdown + [line])[..i] == breakdown;
    assert breakdown + [line] == Breakdown(countries, byCountry, factorsOf)[..i + 1];
  }

  lemma ConfiguredSoFar(countries: seq<string>, i: nat, factorsOf: map<string, seq<Factor>>)
    requires i < |countries|
    ensures NoneConfigured(countries[..i + 1], factorsOf)
            <==> NoneConfigured(countries[..i], factorsOf) && !Configured(countries[i], factorsOf)
  {
    if NoneConfigured(countries[..i + 1], factorsOf) {
      assert countries[..i + 1][i] == countries[i];
      assert forall j :: 0 <= j < i ==> countries[..i][j] == countries[..i + 1][j];
    }
  }

  /** The points, the countries' contributions and the breakdown carry the same CO2. */
  lemma TotalsAgree(points: seq<EmissionPoint>, countries: seq<string>, byCountry: map<string, EnergySeries>, factorsOf: map<string, seq<Factor>>)
    requires IsMergeOf(Parts(points), FleetParts(countries, byCountry, factorsOf))
    ensures TotalTonnes(Breakdown(countries, byCountry, factorsOf)) == Tonnes(KgOf(points))
    ensures 1000.0 * TotalTonnes(Breakdown(countries, byCountry, factorsOf)) == KgOf(points)
  {
    TonnesAreLinear(KgOf(points), 0.0);
    MergeConserves(Parts(points), FleetParts(countries, byCountry, factorsOf));
    BreakdownIsTheParts(countries, byCountry, factorsOf);
  }

  lemma {:induction false} BreakdownIsTheParts(countries: seq<string>, byCountry: map<string, EnergySeries>, factorsOf: map<string, seq<Factor>>)
    ensures TotalTonnes(Breakdown(countries, byCountry, factorsOf))
            == Tonnes(Sum(FleetParts(countries, byCountry, factorsOf), PartAmount).second)
    decreases |countries|
  {
    if countries == [] {
      TonnesAreLinear(0.0, 0.0);
    } else {
      hide *;
      var n := |countries| - 1;
      BreakdownIsTheParts(countries[..n], byCountry, factorsOf);
      FleetOfMore(countries, byCountry, factorsOf);
      var before, last := FleetParts(countries[..n], byCountry, factorsOf), CountryPoints(countries[n], byCountry, factorsOf);
      TonnesAreLinear(Sum(before, PartAmount).second, KgOf(last));
    }
  }

  lemma FleetOfMore(countries: seq<string>, byCountry: map<string, EnergySeries>, factorsOf: map<string, seq<Factor>>)
    requires countries != []
    ensures var n := |countries| - 1;
            var before, last := FleetParts(countries[..n], byCountry, factorsOf), CountryPoints(countries[n], byCountry, factorsOf);
            && Sum(FleetParts(countries, byCountry, factorsOf), PartAmount).second == Sum(before, PartAmount).second + KgOf(last)
            && TotalTonnes(Breakdown(countries, byCountry, factorsOf))
               == TotalTonnes(Breakdown(countries[..n], byCountry, factorsOf)) + Tonnes(KgOf(last))
  {
    hide CountryPoints, Sum, Tonnes;
    var n := |countries| - 1;
    var before, last := FleetParts(countries[..n], byCountry, factorsOf), CountryPoints(countries[n], byCountry, factorsOf);
    SumOfConcat(before, Parts(last), PartAmount);
    assert Breakdown(countries, byCountry, factorsOf)[..n] == Breakdown(countries[..n], byCountry, factorsOf) by {
      hide CountryLine;
    }
  }
}
