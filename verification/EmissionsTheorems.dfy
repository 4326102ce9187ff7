/** The fleet's CO2 series accounts for the fleet's energy, period by period. */
module EmissionsTheorems {
  import opened Options
  import opened Ordering
  import opened Calendar
  import opened Grouping
  import opened Merging
  import opened Rollup
  import opened RollupTheorems
  import opened Emissions

  /** The energy reported for the period starting at `b` by the countries that have (lack) a factor. */
  function EnergyOf(countries: seq<string>, byCountry: map<string, EnergySeries>, factorsOf: map<string, seq<Factor>>, b: Day, configured: bool): real
    requires forall i :: 0 <= i < |countries| ==> countries[i] in byCountry
  {
    if countries == [] then 0.0
    else
      var before, c := EnergyOf(countries[..|countries| - 1], byCountry, factorsOf, b, configured), countries[|countries| - 1];
      if Configured(c, factorsOf) == configured then before + EnergyAt(byCountry[c].points, b) else before
  }

  lemma {:induction false} EnergySplits(countries: seq<string>, byCountry: map<string, EnergySeries>, factorsOf: map<string, seq<Factor>>, b: Day)
    requires forall i :: 0 <= i < |countries| ==> countries[i] in byCountry
    ensures EnergyOf(countries, byCountry, factorsOf, b, true) + EnergyOf(countries, byCountry, factorsOf, b, false)
            == SumOfCountries(countries, byCountry, b)
    decreases |countries|
  {
    hide EnergyAt, Configured;
    if countries != [] {
      EnergySplits(countries[..|countries| - 1], byCountry, factorsOf, b);
    }
  }

  /** Pricing a country's energy does not change it. */
  lemma {:induction false} PricingKeepsEnergy(factors: seq<Factor>, energy: seq<EnergyPoint>, b: Day)
    requires factors != []
    ensures PartOf(Parts(PointsOf(factors, energy)), b).energyKWh == EnergyAt(energy, b)
    decreases |energy|
  {
    if energy != [] {
      var n := |energy| - 1;
      PricingKeepsEnergy(factors, energy[..n], b);
      var parts := Parts(PointsOf(factors, energy));
      assert parts[..n] == Parts(PointsOf(factors, energy[..n])) by {
        hide InEffect, Kg, PointOf;
      }
      assert parts[n].start == energy[n].periodStart && parts[n].energyKWh == energy[n].energyKWh;
    }
  }

  lemma {:induction false} FleetPartsEnergy(countries: seq<string>, byCountry: map<string, EnergySeries>, factorsOf: map<string, seq<Factor>>, b: Day)
    requires forall i :: 0 <= i < |countries| ==> countries[i] in byCountry
    ensures PartOf(FleetParts(countries, byCountry, factorsOf), b).energyKWh == EnergyOf(countries, byCountry, factorsOf, b, true)
    decreases |countries|
  {
    hide PartOf, EnergyAt, PointsOf, Parts;
    if countries == [] {
      NoPart(b);
    } else {
      var n := |countries| - 1;
      var c := countries[n];
      FleetPartsEnergy(countries[..n], byCountry, factorsOf, b);
      PartOfConcat(FleetParts(countries[..n], byCountry, factorsOf), Parts(CountryPoints(c, byCountry, factorsOf)), b);
      if Configured(c, factorsOf) {
        PricingKeepsEnergy(factorsOf[c], byCountry[c].points, b);
      } else {
        NoPart(b);
      }
    }
  }

  lemma NoPart(b: Day)
    ensures Parts([]) == [] && PartOf([], b) == Part(b, 0.0, 0.0)
  {
  }

  /**
   Every point of the fleet's CO2 series carries the fleet's energy of that
   period, less what the unconfigured countries generated in it.
   */
  lemma EmissionPointsCarryFleetEnergy(points: seq<EmissionPoint>, countries: seq<string>, factorsOf: map<string, seq<Factor>>,
                                       rows: seq<RollupRow>, countryBySite: map<string, string>, period: Period,
                                       byCountry: map<string, EnergySeries>, k: nat)
    requires SortedStrings(countries) && forall c :: c in countries <==> c in byCountry
    requires forall c :: c in byCountry <==> c in Keys(rows, CountryOf(countryBySite))
    requires forall c :: c in byCountry ==> byCountry[c] == Bucketed(DailyRows(RowsOf(rows, countryBySite, c)), period)
    requires IsMergeOf(Parts(points), FleetParts(countries, byCountry, factorsOf)) && k < |points|
    ensures forall i :: 0 <= i < |countries| ==> countries[i] in byCountry
    ensures points[k].energyKWh + EnergyOf(countries, byCountry, factorsOf, points[k].periodStart, false)
            == EnergyAt(Bucketed(DailyRows(rows), period).points, points[k].periodStart)
  {
    hide FleetParts, PartOf, Bucketed, DailyRows, EnergyAt, EnergyOf, SumOfCountries, RowsOf;
    forall i | 0 <= i < |countries| ensures countries[i] in byCountry {
      assert countries[i] in countries;
    }
    var b := points[k].periodStart;
    assert Parts(points)[k] == PartOf(FleetParts(countries, byCountry, factorsOf), b);
    FleetPartsEnergy(countries, byCountry, factorsOf, b);
    EnergySplits(countries, byCountry, factorsOf, b);
    SortedIsDistinct(countries);
    CountriesAddUpToTheFleet(countries, rows, countryBySite, period, byCountry, b);
  }
}
