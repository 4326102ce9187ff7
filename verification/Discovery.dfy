/**
 Auto-discovery in pvpro-sync: each cycle lists the vendor's plants and inverters,
 decides which of our sites each plant belongs to, registers what is missing and
 caches a token per device.  Our API may refuse a call, or carry it out and lose the
 reply (cmd/pvpro-sync/main.go, cmd/pvpro-sync/our_client.go).
 */
module Discovery {
  import opened Decimals
  import opened Options

  /** What happens to one call: answered, not carried out, or carried out with the answer lost. */
  datatype Fate = Delivered | Refused | ReplyLost

  datatype ApiError = Unavailable

  /** site_id is deterministic from the vendor's own plant id. */
  function PvProSite(plant: nat): string {
    "PVPRO-" + Decimal(plant)
  }

  lemma PvProSitesDiffer(p: nat, q: nat)
    requires PvProSite(p) == PvProSite(q)
    ensures p == q
  {
    assert Decimal(p) == PvProSite(p)[6..] == PvProSite(q)[6..] == Decimal(q);
    DecimalIsInjective(p, q);
  }

  /** This platform's API, as the connector sees it. */
  class OurApi {
    var devices: map<string, string>
    var sites: set<string>
    var createdSites: seq<string>
    var calls: nat
    const fate: nat -> Fate

    constructor (devices: map<string, string>, sites: set<string>, fate: nat -> Fate)
      ensures this.devices == devices && this.sites == sites && this.fate == fate && createdSites == [] && calls == 0
    {
      this.devices, this.sites, this.fate := devices, sites, fate;
      createdSites, calls := [], 0;
    }

    /** Every registered device is in an existing site. */
    ghost predicate Valid()
      reads this
    {
      forall sn :: sn in devices ==> devices[sn] in sites
    }

    ghost predicate NoFaultSince(start: nat)
      reads this
    {
      forall c :: start <= c < calls ==> fate(c).Delivered?
    }

    method FindDeviceSite(sn: string) returns (r: Result<Option<string>, ApiError>)
      modifies this`calls
      ensures calls == old(calls) + 1
      ensures r.Ok? <==> fate(old(calls)).Delivered?
      ensures r.Ok? ==> r.value == if sn in devices then Some(devices[sn]) else None
    {
      var delivered := fate(calls).Delivered?;
      calls := calls + 1;
      if !delivered {
        return Err(Unavailable);
      }
      return Ok(if sn in devices then Some(devices[sn]) else None);
    }

    method SiteExists(site: string) returns (r: Result<bool, ApiError>)
      modifies this`calls
      ensures calls == old(calls) + 1
      ensures r.Ok? <==> fate(old(calls)).Delivered?
      ensures r.Ok? ==> r.value == (site in sites)
    {
      var delivered := fate(calls).Delivered?;
      calls := calls + 1;
      if !delivered {
        return Err(Unavailable);
      }
      return Ok(site in sites);
    }

    method CreateSite(site: string) returns (ok: bool)
      modifies this`calls, this`sites, this`createdSites
      ensures calls == old(calls) + 1
      ensures var applied := !fate(old(calls)).Refused? && site !in old(sites);
              && sites == old(sites) + (if applied then {site} else {})
              && createdSites == old(createdSites) + (if applied then [site] else [])
              && ok == (applied && fate(old(calls)).Delivered?)
    {
      var f := fate(calls);
      calls := calls + 1;
      if f.Refused? || site in sites {
        return false;
      }
      sites := sites + {site};
      createdSites := createdSites + [site];
      return f.Delivered?;
    }

    method CreateDevice(sn: string, site: string) returns (ok: bool)
      modifies this`calls, this`devices
      ensures calls == old(calls) + 1
      ensures var applied := !fate(old(calls)).Refused? && sn !in old(devices) && site in sites;
              && devices == (if applied then old(devices)[sn := site] else old(devices))
              && ok == (applied && fate(old(calls)).Delivered?)
    {
      var f := fate(calls);
      calls := calls + 1;
      if f.Refused? || sn in devices || site !in sites {
        return false;
      }
      devices := devices[sn := site];
      return f.Delivered?;
    }

    /** A token for a registered device; here, the number of the call that issued it. */
    method IssueCloudImportToken(sn: string) returns (r: Result<nat, ApiError>)
      modifies this`calls
      ensures calls == old(calls) + 1
      ensures r.Ok? <==> fate(old(calls)).Delivered? && sn in devices
      ensures r.Ok? ==> r.value == calls
    {
      var delivered := fate(calls).Delivered?;
      calls := calls + 1;
      if !delivered || sn !in devices {
        return Err(Unavailable);
      }
      return Ok(calls);
    }
  }

  /** A plant as one cycle lists it: its inverters' serials, or None when that fetch failed; likewise its detail. */
  datatype Plant = Plant(id: nat, inverters: Option<seq<string>>, detailFetched: bool)

  datatype KnownDevice = KnownDevice(site: string, token: nat)

  /** The first registered inverter decides; a plant with none gets its own site. */
  function SiteFor(devices: map<string, string>, plant: nat, inverters: seq<string>): string {
    if inverters == [] then PvProSite(plant)
    else if inverters[0] != "" && inverters[0] in devices then devices[inverters[0]]
    else SiteFor(devices, plant, inverters[1..])
  }

  predicate SomeRegistered(devices: map<string, string>, inverters: seq<string>) {
    exists sn :: sn in inverters && sn != "" && sn in devices
  }

  lemma {:induction false} SiteForIsFromARegistered(devices: map<string, string>, plant: nat, inverters: seq<string>)
    ensures SomeRegistered(devices, inverters) ==>
              exists sn :: sn in inverters && sn != "" && sn in devices && SiteFor(devices, plant, inverters) == devices[sn]
    ensures !SomeRegistered(devices, inverters) ==> SiteFor(devices, plant, inverters) == PvProSite(plant)
  {
    if inverters != [] {
      SiteForIsFromARegistered(devices, plant, inverters[1..]);
      assert inverters == [inverters[0]] + inverters[1..];
    }
  }

  lemma {:induction false} SiteForAfterUnregistered(devices: map<string, string>, plant: nat, inverters: seq<string>, i: nat)
    requires i <= |inverters| && !SomeRegistered(devices, inverters[..i])
    ensures SiteFor(devices, plant, inverters) == SiteFor(devices, plant, inverters[i..])
    decreases i
  {
    if i > 0 {
      assert inverters[0] in inverters[..i];
      assert forall sn :: sn in inverters[1..][..i - 1] ==> sn in inverters[..i];
      SiteForAfterUnregistered(devices, plant, inverters[1..], i - 1);
      assert inverters[1..][i - 1..] == inverters[i..];
    }
  }

  /** Which plant a serial belongs to, and which of our sites each plant's inverters are in. */
  datatype Fleet = Fleet(plantOf: string -> Option<nat>, home: nat -> string)

  /** Each plant's registered inverters are in one site. */
  ghost predicate OneSitePerPlant(fleet: Fleet, devices: map<string, string>) {
    forall sn :: sn in devices && fleet.plantOf(sn).Some? ==> devices[sn] == fleet.home(fleet.plantOf(sn).value)
  }

  /** No serial is shared between plants. */
  ghost predicate OwnInverters(fleet: Fleet, plant: Plant) {
    plant.inverters.Some? ==> forall sn :: sn in plant.inverters.value && sn != "" ==> fleet.plantOf(sn) == Some(plant.id)
  }

  /** A plant kept in a site other than its own PVPRO one is listed with some inverter that is registered there. */
  ghost predicate Recognisable(fleet: Fleet, devices: map<string, string>, plant: Plant) {
    plant.inverters.Some? && plant.inverters.value != [] && fleet.home(plant.id) != PvProSite(plant.id)
    ==> SomeRegistered(devices, plant.inverters.value)
  }

  ghost predicate Listable(fleet: Fleet, devices: map<string, string>, plants: seq<Plant>) {
    forall plant :: plant in plants ==> OwnInverters(fleet, plant) && Recognisable(fleet, devices, plant)
  }

  /** Reconciliation finds the plant's own site if and only if the listing lets the site be recognised. */
  lemma SiteForIsHome(fleet: Fleet, devices: map<string, string>, plant: Plant)
    requires OneSitePerPlant(fleet, devices) && OwnInverters(fleet, plant)
    requires plant.inverters.Some? && plant.inverters.value != []
    ensures SiteFor(devices, plant.id, plant.inverters.value) == fleet.home(plant.id) <==> Recognisable(fleet, devices, plant)
  {
    SiteForIsFromARegistered(devices, plant.id, plant.inverters.value);
  }

  /** The listed inverters that are registered are at `site`. */
  ghost predicate AllAt(devices: map<string, string>, inverters: seq<string>, site: string) {
    forall sn :: sn in inverters && sn != "" && sn in devices ==> devices[sn] == site
  }

  lemma ListedAreAtTheirSite(fleet: Fleet, devices: map<string, string>, plant: Plant)
    requires OneSitePerPlant(fleet, devices) && OwnInverters(fleet, plant) && plant.inverters.Some?
    ensures AllAt(devices, plant.inverters.value, SiteFor(devices, plant.id, plant.inverters.value))
  {
    SiteForIsFromARegistered(devices, plant.id, plant.inverters.value);
  }

  /** Only listed inverters are registered anew. */
  ghost predicate OnlyAdds(devices: map<string, string>, later: map<string, string>, inverters: seq<string>) {
    forall sn :: sn in later && sn !in devices ==> sn in inverters && sn != ""
  }

  lemma AddedAtHome(fleet: Fleet, devices: map<string, string>, later: map<string, string>, plant: Plant)
    requires OneSitePerPlant(fleet, devices) && OwnInverters(fleet, plant) && plant.inverters.Some?
    requires OnlyGrows(devices, later) && OnlyAdds(devices, later, plant.inverters.value)
    requires AllAt(later, plant.inverters.value, fleet.home(plant.id))
    ensures OneSitePerPlant(fleet, later)
  {
  }

  /** Nothing is ever moved or removed. */
  ghost predicate OnlyGrows(devices: map<string, string>, later: map<string, string>) {
    forall sn :: sn in devices ==> sn in later && later[sn] == devices[sn]
  }

  lemma StaysListable(fleet: Fleet, devices: map<string, string>, later: map<string, string>, plants: seq<Plant>)
    requires Listable(fleet, devices, plants) && OnlyGrows(devices, later)
    ensures Listable(fleet, later, plants)
  {
    forall plant | plant in plants ensures OwnInverters(fleet, plant) && Recognisable(fleet, later, plant) {
      assert Recognisable(fleet, devices, plant);
    }
  }

  lemma ListableHere(fleet: Fleet, devices: map<string, string>, plants: seq<Plant>, i: nat)
    requires Listable(fleet, devices, plants) && i < |plants|
    ensures OwnInverters(fleet, plants[i]) && Recognisable(fleet, devices, plants[i])
  {
    assert plants[i] in plants;
  }

  /** Sites are created at most once each, for plants only, and stay. */
  ghost predicate CreatedOnce(created: seq<string>, sites: set<string>) {
    && (forall i, j :: 0 <= i < j < |created| ==> created[i] != created[j])
    && (forall i :: 0 <= i < |created| ==> created[i] in sites && exists p :: created[i] == PvProSite(p))
  }

  /** Nothing is left to create for this plant. */
  ghost predicate Settled(known: map<string, KnownDevice>, sites: set<string>, plant: Plant) {
    plant.inverters.Some? && plant.inverters.value != [] ==>
      && (forall sn :: sn in plant.inverters.value && sn != "" ==> sn in known)
      && ((forall sn :: sn in plant.inverters.value ==> sn == "") ==> PvProSite(plant.id) in sites)
  }

  lemma StaysSettled(known: map<string, KnownDevice>, sites: set<string>, known': map<string, KnownDevice>, sites': set<string>, plant: Plant)
    requires Settled(known, sites, plant) && known.Keys <= known'.Keys && sites <= sites'
    ensures Settled(known', sites', plant)
  {
  }

  ghost predicate AllSettled(known: map<string, KnownDevice>, sites: set<string>, plants: seq<Plant>) {
    forall plant :: plant in plants ==> Settled(known, sites, plant)
  }

  /** Every fetched listing of the later cycle was fetched, with the same inverters, in the earlier one. */
  ghost predicate SamePlants(earlier: seq<Plant>, later: seq<Plant>) {
    forall plant :: plant in later && plant.inverters.Some? ==> ListedIn(earlier, plant)
  }

  ghost predicate ListedIn(plants: seq<Plant>, plant: Plant) {
    exists p :: p in plants && p.id == plant.id && p.inverters == plant.inverters
  }

  lemma SettledForTheSamePlants(known: map<string, KnownDevice>, sites: set<string>, earlier: seq<Plant>, later: seq<Plant>)
    requires AllSettled(known, sites, earlier) && SamePlants(earlier, later)
    ensures AllSettled(known, sites, later)
  {
    forall plant | plant in later ensures Settled(known, sites, plant) {
      if plant.inverters.Some? {
        assert ListedIn(earlier, plant);
        var p :| p in earlier && p.id == plant.id && p.inverters == plant.inverters;
        assert Settled(known, sites, p);
      }
    }
  }

  /** The registry and the cache between two cycles. */
  datatype Snapshot = Snapshot(
    devices: map<string, string>,
    sites: set<string>,
    createdSites: seq<string>,
    known: map<string, KnownDevice>,
    calls: nat)
  {
    predicate SameAs(other: Snapshot) {
      devices == other.devices && sites == other.sites && createdSites == other.createdSites && known == other.known
    }
  }

  // ---------- which devices a cycle syncs ----------

  /** What became of one place of a listing; a device that fails names the call that failed. */
  datatype Pick = Empty | Taken | FailedAt(call: nat)

  /** The serials at the taken places of a listing, in order. */
  function Picked(inverters: seq<string>, picks: seq<Pick>): seq<string>
    requires |picks| == |inverters|
  {
    if inverters == [] then []
    else
      var n := |inverters| - 1;
      Picked(inverters[..n], picks[..n]) + if picks[n].Taken? then [inverters[n]] else []
  }

  /** Only a serial that was not cached can fail, and only by a call of this stretch that was not answered. */
  ghost predicate RightPick(fate: nat -> Fate, start: nat, end: nat, cached: set<string>, sn: string, pick: Pick) {
    && (pick.Empty? <==> sn == "")
    && (pick.FailedAt? ==> sn !in cached && start <= pick.call < end && !fate(pick.call).Delivered?)
  }

  /** A serial once taken is taken wherever it is repeated, and each failure has its own failed call. */
  ghost predicate PicksInOrder(inverters: seq<string>, picks: seq<Pick>)
    requires |picks| == |inverters|
  {
    forall i, j :: 0 <= i < j < |inverters| ==>
      && (picks[i].Taken? && inverters[i] == inverters[j] ==> picks[j].Taken?)
      && (picks[i].FailedAt? && picks[j].FailedAt? ==> picks[i].call < picks[j].call)
  }

  /** The cache gains exactly what is taken. */
  ghost predicate RightPicks(fate: nat -> Fate, start: nat, end: nat, inverters: seq<string>, picks: seq<Pick>,
                             cached: set<string>, cached': set<string>) {
    && |picks| == |inverters|
    && (forall i :: 0 <= i < |inverters| ==> RightPick(fate, start, end, cached, inverters[i], picks[i]))
    && PicksInOrder(inverters, picks)
    && forall sn :: sn in cached' <==> sn in cached || sn in Picked(inverters, picks)
  }

  lemma OneMorePicked(inverters: seq<string>, picks: seq<Pick>, sn: string, pick: Pick)
    requires |picks| == |inverters|
    ensures Picked(inverters + [sn], picks + [pick]) == Picked(inverters, picks) + if pick.Taken? then [sn] else []
  {
    assert (inverters + [sn])[..|inverters|] == inverters && (picks + [pick])[..|inverters|] == picks;
  }

  lemma {:induction false} TakenArePicked(inverters: seq<string>, picks: seq<Pick>, i: nat)
    requires |picks| == |inverters| && i < |inverters| && picks[i].Taken?
    ensures inverters[i] in Picked(inverters, picks)
    decreases |inverters|
  {
    if i < |inverters| - 1 {
      TakenArePicked(inverters[..|inverters| - 1], picks[..|inverters| - 1], i);
    }
  }

  lemma OneMorePick(fate: nat -> Fate, start: nat, mid: nat, end: nat, inverters: seq<string>, picks: seq<Pick>,
                    cached: set<string>, before: set<string>, after: set<string>, sn: string, pick: Pick)
    requires RightPicks(fate, start, mid, inverters, picks, cached, before) && start <= mid <= end
    requires after == before + if pick.Taken? then {sn} else {}
    requires RightPick(fate, mid, end, before, sn, pick)
    ensures RightPicks(fate, start, end, inverters + [sn], picks + [pick], cached, after)
    ensures Picked(inverters + [sn], picks + [pick]) == Picked(inverters, picks) + if pick.Taken? then [sn] else []
  {
    OneMorePicked(inverters, picks, sn, pick);
    hide Picked;
    forall i | 0 <= i < |inverters| && picks[i].Taken? && inverters[i] == sn ensures pick.Taken? {
      TakenArePicked(inverters, picks, i);
      assert RightPick(fate, start, mid, cached, inverters[i], picks[i]);
    }
    forall i | 0 <= i < |inverters| ensures RightPick(fate, start, end, cached, inverters[i], picks[i]) {
      assert RightPick(fate, start, mid, cached, inverters[i], picks[i]);
    }
  }

  lemma {:induction false} PickedAreListed(inverters: seq<string>, picks: seq<Pick>)
    requires |picks| == |inverters|
    requires forall i :: 0 <= i < |inverters| ==> (picks[i].Empty? <==> inverters[i] == "")
    ensures forall sn :: sn in Picked(inverters, picks) ==> sn in inverters && sn != ""
    decreases |inverters|
  {
    if inverters != [] {
      PickedAreListed(inverters[..|inverters| - 1], picks[..|inverters| - 1]);
      assert inverters == inverters[..|inverters| - 1] + [inverters[|inverters| - 1]];
    }
  }

  /** What is picked from a listing are its non-empty serials that are cached afterwards. */
  lemma PickedAreTheCached(fate: nat -> Fate, start: nat, end: nat, inverters: seq<string>, picks: seq<Pick>,
                           cached: set<string>, cached': set<string>)
    requires RightPicks(fate, start, end, inverters, picks, cached, cached')
    ensures forall sn :: sn in Picked(inverters, picks) <==> sn in inverters && sn != "" && sn in cached'
  {
    hide Picked;
    forall i | 0 <= i < |inverters| ensures picks[i].Empty? <==> inverters[i] == "" {
      assert RightPick(fate, start, end, cached, inverters[i], picks[i]);
    }
    PickedAreListed(inverters, picks);
    forall i | 0 <= i < |inverters| && inverters[i] in cached && inverters[i] != "" ensures inverters[i] in Picked(inverters, picks) {
      assert RightPick(fate, start, end, cached, inverters[i], picks[i]);
      TakenArePicked(inverters, picks, i);
    }
  }

  /** A listing's serials, without the empty ones. */
  function Serials(inverters: seq<string>): seq<string> {
    if inverters == [] then []
    else Serials(inverters[..|inverters| - 1]) + if inverters[|inverters| - 1] != "" then [inverters[|inverters| - 1]] else []
  }

  lemma {:induction false} WithoutFailuresAllArePicked(inverters: seq<string>, picks: seq<Pick>)
    requires |picks| == |inverters|
    requires forall i :: 0 <= i < |inverters| ==> !picks[i].FailedAt? && (picks[i].Empty? <==> inverters[i] == "")
    ensures Picked(inverters, picks) == Serials(inverters)
    ensures forall sn :: sn in inverters && sn != "" ==> sn in Picked(inverters, picks)
    decreases |inverters|
  {
    if inverters != [] {
      WithoutFailuresAllArePicked(inverters[..|inverters| - 1], picks[..|inverters| - 1]);
      assert inverters == inverters[..|inverters| - 1] + [inverters[|inverters| - 1]];
    }
  }

  lemma AnsweredCallsPickAll(fate: nat -> Fate, start: nat, end: nat, inverters: seq<string>, picks: seq<Pick>,
                             cached: set<string>, cached': set<string>)
    requires RightPicks(fate, start, end, inverters, picks, cached, cached')
    requires forall c :: start <= c < end ==> fate(c).Delivered?
    ensures Picked(inverters, picks) == Serials(inverters)
    ensures forall sn :: sn in inverters && sn != "" ==> sn in cached'
  {
    forall i | 0 <= i < |inverters| ensures !picks[i].FailedAt? && (picks[i].Empty? <==> inverters[i] == "") {
      assert RightPick(fate, start, end, cached, inverters[i], picks[i]);
    }
    WithoutFailuresAllArePicked(inverters, picks);
  }

  ghost predicate Later(before: Snapshot, after: Snapshot) {
    && before.calls <= after.calls && before.sites <= after.sites && OnlyGrows(before.devices, after.devices)
    && before.known.Keys <= after.known.Keys
  }

  /** The first `i` devices of a listing are done. */
  ghost predicate DevicesSoFar(fate: nat -> Fate, inverters: seq<string>, i: nat, picks: seq<Pick>, toSync: seq<string>,
                               start: Snapshot, now: Snapshot)
    requires i <= |inverters|
  {
    && RightPicks(fate, start.calls, now.calls, inverters[..i], picks, start.known.Keys, now.known.Keys)
    && toSync == Picked(inverters[..i], picks)
    && Later(start, now) && OnlyAdds(start.devices, now.devices, inverters)
    && ((forall sn :: sn in inverters && sn != "" ==> sn in start.known) ==> now.SameAs(start))
  }

  lemma DevicesStart(fate: nat -> Fate, inverters: seq<string>, start: Snapshot)
    ensures DevicesSoFar(fate, inverters, 0, [], [], start, start)
  {
  }

  lemma DevicesGrow(fate: nat -> Fate, inverters: seq<string>, i: nat, picks: seq<Pick>, toSync: seq<string>,
                    start: Snapshot, mid: Snapshot, now: Snapshot, pick: Pick)
    requires i < |inverters| && DevicesSoFar(fate, inverters, i, picks, toSync, start, mid)
    requires Later(mid, now) && OnlyAdds(mid.devices, now.devices, inverters)
    requires RightPick(fate, mid.calls, now.calls, mid.known.Keys, inverters[i], pick)
    requires now.known.Keys == mid.known.Keys + if pick.Taken? then {inverters[i]} else {}
    requires inverters[i] == "" || inverters[i] in mid.known ==> now.SameAs(mid)
    ensures DevicesSoFar(fate, inverters, i + 1, picks + [pick], toSync + if pick.Taken? then [inverters[i]] else [], start, now)
  {
    hide RightPicks, RightPick, Picked;
    assert inverters[..i + 1] == inverters[..i] + [inverters[i]] && inverters[i] in inverters;
    OneMorePick(fate, start.calls, mid.calls, now.calls, inverters[..i], picks, start.known.Keys, mid.known.Keys, now.known.Keys,
                inverters[i], pick);
  }

  lemma SyncedAreTheCached(fate: nat -> Fate, inverters: seq<string>, picks: seq<Pick>, toSync: seq<string>, start: Snapshot, now: Snapshot)
    requires DevicesSoFar(fate, inverters, |inverters|, picks, toSync, start, now)
    ensures forall sn :: sn in toSync <==> sn in inverters && sn != "" && sn in now.known
  {
    hide RightPicks, Picked;
    assert inverters[..|inverters|] == inverters;
    PickedAreTheCached(fate, start.calls, now.calls, inverters, picks, start.known.Keys, now.known.Keys);
  }

  /** One plant's part of a cycle: the state before and after, and what was picked unless the plant was skipped. */
  datatype Pass = Pass(before: Snapshot, after: Snapshot, picks: Option<seq<Pick>>)

  ghost predicate NoFaultDuring(fate: nat -> Fate, pass: Pass) {
    forall c :: pass.before.calls <= c < pass.after.calls ==> fate(c).Delivered?
  }

  /** A plant is skipped only if its listing or its reconciliation failed or it lists nothing. */
  ghost predicate RightPass(fate: nat -> Fate, plant: Plant, pass: Pass) {
    if pass.picks.None?
    then plant.inverters.None? || plant.inverters.value == [] || !NoFaultDuring(fate, pass) || !plant.detailFetched
    else
      && plant.inverters.Some?
      && RightPicks(fate, pass.before.calls, pass.after.calls, plant.inverters.value, pass.picks.value,
                    pass.before.known.Keys, pass.after.known.Keys)
  }

  function DevicesOf(plant: Plant, picks: Option<seq<Pick>>): seq<string> {
    if plant.inverters.Some? && picks.Some? && |picks.value| == |plant.inverters.value|
    then Picked(plant.inverters.value, picks.value) else []
  }

  function DevicesOfAll(plants: seq<Plant>, passes: seq<Pass>): seq<string>
    requires |passes| == |plants|
  {
    if plants == [] then []
    else
      var n := |plants| - 1;
      DevicesOfAll(plants[..n], passes[..n]) + DevicesOf(plants[n], passes[n].picks)
  }

  /** The passes follow each other from one state to another. */
  ghost predicate RightPasses(fate: nat -> Fate, plants: seq<Plant>, passes: seq<Pass>, start: Snapshot, end: Snapshot) {
    && |passes| == |plants|
    && (if passes == [] then start == end else passes[0].before == start && passes[|passes| - 1].after == end)
    && (forall i :: 0 <= i < |passes| - 1 ==> passes[i].after == passes[i + 1].before)
    && (forall i :: 0 <= i < |passes| ==> RightPass(fate, plants[i], passes[i]))
    && (forall i :: 0 <= i < |passes| ==> start.calls <= passes[i].before.calls <= passes[i].after.calls <= end.calls)
  }

  lemma PassesGrow(fate: nat -> Fate, plants: seq<Plant>, n: nat, passes: seq<Pass>, start: Snapshot, pass: Pass)
    requires n < |plants| && RightPasses(fate, plants[..n], passes, start, pass.before)
    requires RightPass(fate, plants[n], pass) && start.calls <= pass.before.calls <= pass.after.calls
    ensures RightPasses(fate, plants[..n + 1], passes + [pass], start, pass.after)
    ensures DevicesOfAll(plants[..n + 1], passes + [pass]) == DevicesOfAll(plants[..n], passes) + DevicesOf(plants[n], pass.picks)
  {
    hide RightPass;
    assert plants[..n + 1][..n] == plants[..n] && (passes + [pass])[..n] == passes;
    forall i | 0 <= i < n ensures RightPass(fate, plants[..n + 1][i], (passes + [pass])[i]) {
      assert RightPass(fate, plants[..n][i], passes[i]);
    }
  }

  /** The serials of all fetched listings, in order. */
  function AllSerials(plants: seq<Plant>): seq<string> {
    if plants == [] then []
    else
      var plant := plants[|plants| - 1];
      AllSerials(plants[..|plants| - 1]) + if plant.inverters.Some? then Serials(plant.inverters.value) else []
  }

  /** Without failures every listed serial is synced, once per listing. */
  lemma {:induction false} FaultlessPassesSyncAll(fate: nat -> Fate, plants: seq<Plant>, passes: seq<Pass>)
    requires |passes| == |plants|
    requires forall i :: 0 <= i < |passes| ==> RightPass(fate, plants[i], passes[i]) && NoFaultDuring(fate, passes[i]) && plants[i].detailFetched
    ensures DevicesOfAll(plants, passes) == AllSerials(plants)
    decreases |plants|
  {
    if plants != [] {
      var n := |plants| - 1;
      FaultlessPassesSyncAll(fate, plants[..n], passes[..n]);
      assert RightPass(fate, plants[n], passes[n]);
      if passes[n].picks.Some? {
        AnsweredCallsPickAll(fate, passes[n].before.calls, passes[n].after.calls, plants[n].inverters.value,
                             passes[n].picks.value, passes[n].before.known.Keys, passes[n].after.known.Keys);
      }
    }
  }

  lemma FaultlessCycleSyncsAll(fate: nat -> Fate, plants: seq<Plant>, passes: seq<Pass>, start: Snapshot, end: Snapshot)
    requires RightPasses(fate, plants, passes, start, end)
    requires forall c :: start.calls <= c < end.calls ==> fate(c).Delivered?
    requires forall plant :: plant in plants ==> plant.detailFetched
    ensures DevicesOfAll(plants, passes) == AllSerials(plants)
  {
    hide RightPass;
    FaultlessPassesSyncAll(fate, plants, passes);
  }

  /** None when the plant list itself could not be fetched. */
  type Cycle = Option<seq<Plant>>

  /** A cycle in which every fetch succeeded and every call to our API was answered. */
  ghost predicate FailureFree(fate: nat -> Fate, cycle: Cycle, before: Snapshot, after: Snapshot) {
    && cycle.Some? && (forall plant :: plant in cycle.value ==> plant.detailFetched)
    && (forall c :: before.calls <= c < after.calls ==> fate(c).Delivered?)
  }

  /** The first `i` plants of a cycle that began at `start` are done. */
  ghost predicate CycleSoFar(fate: nat -> Fate, plants: seq<Plant>, i: nat, passes: seq<Pass>, toSync: seq<string>,
                             start: Snapshot, now: Snapshot)
    requires i <= |plants|
  {
    && RightPasses(fate, plants[..i], passes, start, now) && toSync == DevicesOfAll(plants[..i], passes)
    && Later(start, now)
    && (AllSettled(start.known, start.sites, plants) ==> now.SameAs(start))
    && (FailureFree(fate, Some(plants), start, now) ==> AllSettled(now.known, now.sites, plants[..i]))
  }

  lemma CycleStarts(fate: nat -> Fate, plants: seq<Plant>, start: Snapshot)
    ensures CycleSoFar(fate, plants, 0, [], [], start, start)
  {
  }

  lemma CycleGrows(fate: nat -> Fate, plants: seq<Plant>, i: nat, passes: seq<Pass>, toSync: seq<string>, start: Snapshot,
                   pass: Pass)
    requires i < |plants| && CycleSoFar(fate, plants, i, passes, toSync, start, pass.before)
    requires RightPass(fate, plants[i], pass) && Later(pass.before, pass.after)
    requires Settled(pass.before.known, pass.before.sites, plants[i]) ==> pass.after.SameAs(pass.before)
    requires NoFaultDuring(fate, pass) && plants[i].detailFetched ==> Settled(pass.after.known, pass.after.sites, plants[i])
    ensures CycleSoFar(fate, plants, i + 1, passes + [pass], toSync + DevicesOf(plants[i], pass.picks), start, pass.after)
  {
    PassesGrow(fate, plants, i, passes, start, pass);
    hide RightPasses, DevicesOfAll, RightPass, DevicesOf, Settled;
    assert plants[i] in plants && plants[..i + 1] == plants[..i] + [plants[i]];
    forall plant | plant in plants[..i] && Settled(pass.before.known, pass.before.sites, plant)
      ensures Settled(pass.after.known, pass.after.sites, plant)
    {
      StaysSettled(pass.before.known, pass.before.sites, pass.after.known, pass.after.sites, plant);
    }
  }

  ghost predicate RepeatCreatesNothing(fate: nat -> Fate, cycles: seq<Cycle>, trace: seq<Snapshot>, k: nat)
    requires k + 1 < |cycles| && k + 2 < |trace|
  {
    FailureFree(fate, cycles[k], trace[k], trace[k + 1]) && (cycles[k + 1].Some? ==> SamePlants(cycles[k].value, cycles[k + 1].value))
    ==> trace[k + 2].SameAs(trace[k + 1])
  }

  /** What is known after some cycles of a vendor: who listed what, and that repeats created nothing. */
  ghost predicate IsTrace(fate: nat -> Fate, vendor: (nat, map<string, string>) -> Cycle, cycles: seq<Cycle>, trace: seq<Snapshot>) {
    && |trace| == |cycles| + 1
    && (forall k :: 0 <= k < |cycles| ==> cycles[k] == vendor(k, trace[k].devices))
    && (forall k :: 0 <= k < |cycles| - 1 ==> RepeatCreatesNothing(fate, cycles, trace, k))
  }

  lemma TraceGrows(fate: nat -> Fate, vendor: (nat, map<string, string>) -> Cycle, cycles: seq<Cycle>, trace: seq<Snapshot>,
                   cycle: Cycle, after: Snapshot)
    requires IsTrace(fate, vendor, cycles, trace) && cycle == vendor(|cycles|, trace[|cycles|].devices)
    requires cycles != [] ==>
               var k := |cycles| - 1;
               FailureFree(fate, cycles[k], trace[k], trace[k + 1]) && (cycle.Some? ==> SamePlants(cycles[k].value, cycle.value))
               ==> after.SameAs(trace[k + 1])
    ensures IsTrace(fate, vendor, cycles + [cycle], trace + [after])
  {
    hide RepeatCreatesNothing;
    forall k | 0 <= k < |cycles| ensures RepeatCreatesNothing(fate, cycles + [cycle], trace + [after], k) {
      if k < |cycles| - 1 {
        RepeatsStay(fate, cycles, trace, cycle, after, k);
      } else {
        LastRepeat(fate, cycles, trace, cycle, after);
      }
    }
  }

  lemma VendorIsListable(fleet: Fleet, vendor: (nat, map<string, string>) -> Cycle, registered: map<string, string>, devices: map<string, string>, k: nat)
    requires ListsRecognisably(fleet, vendor, registered) && OnlyGrows(registered, devices) && OneSitePerPlant(fleet, devices)
    ensures vendor(k, devices).Some? ==> Listable(fleet, devices, vendor(k, devices).value)
  {
  }

  lemma RepeatsStay(fate: nat -> Fate, cycles: seq<Cycle>, trace: seq<Snapshot>, cycle: Cycle, after: Snapshot, k: nat)
    requires k + 1 < |cycles| && k + 2 < |trace| && RepeatCreatesNothing(fate, cycles, trace, k)
    ensures RepeatCreatesNothing(fate, cycles + [cycle], trace + [after], k)
  {
    assert (cycles + [cycle])[k] == cycles[k] && (cycles + [cycle])[k + 1] == cycles[k + 1];
    hide FailureFree, SamePlants;
  }

  lemma LastRepeat(fate: nat -> Fate, cycles: seq<Cycle>, trace: seq<Snapshot>, cycle: Cycle, after: Snapshot)
    requires cycles != [] && |trace| == |cycles| + 1
    requires var k := |cycles| - 1;
             FailureFree(fate, cycles[k], trace[k], trace[k + 1]) && (cycle.Some? ==> SamePlants(cycles[k].value, cycle.value))
             ==> after.SameAs(trace[k + 1])
    ensures RepeatCreatesNothing(fate, cycles + [cycle], trace + [after], |cycles| - 1)
  {
    hide SamePlants;
  }

  /** In every cycle, whatever has been registered by then, the vendor's listings let the plants' sites be recognised. */
  ghost predicate ListsRecognisably(fleet: Fleet, vendor: (nat, map<string, string>) -> Cycle, registered: map<string, string>) {
    forall k: nat, devices :: OnlyGrows(registered, devices) && OneSitePerPlant(fleet, devices) && vendor(k, devices).Some?
                              ==> Listable(fleet, devices, vendor(k, devices).value)
  }

  class Connector {
    const ours: OurApi
    var known: map<string, KnownDevice>

    constructor (ours: OurApi)
      ensures this.ours == ours && known == map[]
    {
      this.ours := ours;
      known := map[];
    }

    /** The cache agrees with the registry. */
    ghost predicate CacheAgrees()
      reads this, ours
    {
      forall sn :: sn in known ==> sn in ours.devices && known[sn].site == ours.devices[sn]
    }

    method ReconcileSite(plant: Plant, inverters: seq<string>) returns (r: Result<string, ApiError>)
      requires ours.Valid() && CacheAgrees()
      modifies ours`calls, ours`sites, ours`createdSites
      ensures ours.Valid() && ours.calls >= old(ours.calls)
      ensures r.Ok? ==> r.value == SiteFor(ours.devices, plant.id, inverters) && r.value in ours.sites
      ensures var site := PvProSite(plant.id);
              || (ours.sites == old(ours.sites) && ours.createdSites == old(ours.createdSites))
              || (ours.sites == old(ours.sites) + {site} && ours.createdSites == old(ours.createdSites) + [site]
                  && site !in old(ours.sites) && !SomeRegistered(ours.devices, inverters))
      ensures ours.NoFaultSince(old(ours.calls)) && plant.detailFetched ==> r.Ok?
      ensures !plant.detailFetched ==> ours.sites == old(ours.sites)
      ensures (exists k :: 0 <= k < |inverters| && inverters[k] != "" && inverters[k] in known && forall j :: 0 <= j < k ==> inverters[j] == "")
              ==> r.Ok? && ours.calls == old(ours.calls)
    {
      for i := 0 to |inverters|
        invariant ours.calls >= old(ours.calls)
        invariant (forall j :: 0 <= j < i ==> inverters[j] == "") ==> ours.calls == old(ours.calls)
        invariant !exists k :: 0 <= k < i && inverters[k] != "" && inverters[k] in known && forall j :: 0 <= j < k ==> inverters[j] == ""
        invariant ours.sites == old(ours.sites) && ours.createdSites == old(ours.createdSites)
        invariant !SomeRegistered(ours.devices, inverters[..i])
      {
        SiteForAfterUnregistered(ours.devices, plant.id, inverters, i);
        if inverters[i] != "" {
          if inverters[i] in known {
            return Ok(known[inverters[i]].site);
          }
          var found := ours.FindDeviceSite(inverters[i]);
          if found.Err? {
            return Err(Unavailable);
          }
          if found.value.Some? {
            return Ok(found.value.value);
          }
        }
        assert inverters[..i + 1] == inverters[..i] + [inverters[i]];
      }
      assert inverters[..|inverters|] == inverters;
      SiteForIsFromARegistered(ours.devices, plant.id, inverters);
      var site := PvProSite(plant.id);
      var exists_ := ours.SiteExists(site);
      if exists_.Err? {
        return Err(Unavailable);
      }
      if exists_.value {
        return Ok(site);
      }
      if !plant.detailFetched {
        return Err(Unavailable);
      }
      var ok := ours.CreateSite(site);
      if !ok {
        return Err(Unavailable);
      }
      return Ok(site);
    }

    method EnsureDeviceRegisteredAndTokenCached(site: string, sn: string) returns (ok: bool)
      requires ours.Valid() && site in ours.sites
      modifies ours`calls, ours`devices, this`known
      ensures ours.Valid() && ours.calls >= old(ours.calls)
      ensures ours.devices == old(ours.devices) || (sn !in old(ours.devices) && ours.devices == old(ours.devices)[sn := site])
      ensures ok ==> sn in ours.devices && known == old(known)[sn := KnownDevice(site, ours.calls)]
      ensures !ok ==> known == old(known)
      ensures ok <==> ours.NoFaultSince(old(ours.calls))
    {
      var found := ours.FindDeviceSite(sn);
      if found.Err? {
        return false;
      }
      if found.value.None? {
        var created := ours.CreateDevice(sn, site);
        if !created {
          return false;
        }
      }
      var token := ours.IssueCloudImportToken(sn);
      if token.Err? {
        return false;
      }
      known := known[sn := KnownDevice(site, token.value)];
      return true;
    }

    // ---------- one cycle ----------

    ghost predicate Sound()
      reads this, ours
    {
      ours.Valid() && CacheAgrees() && CreatedOnce(ours.createdSites, ours.sites)
    }

    ghost predicate Good(fleet: Fleet)
      reads this, ours
    {
      Sound() && OneSitePerPlant(fleet, ours.devices)
    }

    twostate predicate Advances()
      reads this, ours
    {
      Later(old(Now()), Now())
    }

    twostate predicate CreatesNothing()
      reads this, ours
    {
      ours.devices == old(ours.devices) && ours.sites == old(ours.sites) && ours.createdSites == old(ours.createdSites) && known == old(known)
    }

    ghost function Now(): Snapshot
      reads this, ours
    {
      Snapshot(ours.devices, ours.sites, ours.createdSites, known, ours.calls)
    }

    /**
     Registers what is missing of one plant at `site` and caches tokens; returns the devices to
     sync: in listing order, all but the empty serials and those one of whose own calls failed.
     */
    method SyncDevices(inverters: seq<string>, site: string) returns (toSync: seq<string>, ghost picks: seq<Pick>)
      requires Sound() && site in ours.sites && AllAt(ours.devices, inverters, site)
      modifies ours`calls, ours`devices, this`known
      ensures Sound() && AllAt(ours.devices, inverters, site)
      ensures DevicesSoFar(ours.fate, inverters, |inverters|, picks, toSync, old(Now()), Now())
      ensures forall sn :: sn in toSync <==> sn in inverters && sn != "" && sn in known
    {
      toSync, picks := [], [];
      DevicesStart(ours.fate, inverters, Now());
      hide DevicesSoFar, RightPick, CreatedOnce;
      for i := 0 to |inverters|
        invariant Sound() && site in ours.sites && AllAt(ours.devices, inverters, site)
        invariant DevicesSoFar(ours.fate, inverters, i, picks, toSync, old(Now()), Now())
      {
        ghost var before := Now();
        var synced;
        ghost var pick;
        synced, pick := SyncDevice(inverters, inverters[i], site);
        DevicesGrow(ours.fate, inverters, i, picks, toSync, old(Now()), before, Now(), pick);
        toSync, picks := toSync + (if synced then [inverters[i]] else []), picks + [pick];
      }
      SyncedAreTheCached(ours.fate, inverters, picks, toSync, old(Now()), Now());
    }

    /** One listed device: an empty serial is passed over, a cached one needs no call. */
    method SyncDevice(ghost inverters: seq<string>, sn: string, site: string) returns (synced: bool, ghost pick: Pick)
      requires Sound() && site in ours.sites && AllAt(ours.devices, inverters, site) && sn in inverters
      modifies ours`calls, ours`devices, this`known
      ensures Sound() && Advances() && AllAt(ours.devices, inverters, site)
      ensures OnlyAdds(old(ours.devices), ours.devices, inverters)
      ensures RightPick(ours.fate, old(ours.calls), ours.calls, old(known).Keys, sn, pick) && synced == pick.Taken?
      ensures known.Keys == old(known).Keys + if synced then {sn} else {}
      ensures sn == "" || sn in old(known) ==> CreatesNothing()
    {
      if sn == "" {
        return false, Empty;
      }
      if sn !in known {
        var ok := EnsureDeviceRegisteredAndTokenCached(site, sn);
        if !ok {
          ghost var c :| old(ours.calls) <= c < ours.calls && !ours.fate(c).Delivered?;
          return false, FailedAt(c);
        }
      }
      return true, Taken;
    }

    method Reconcile(plant: Plant, inverters: seq<string>) returns (r: Result<string, ApiError>)
      requires Sound() && plant.inverters == Some(inverters) && inverters != []
      modifies ours`calls, ours`sites, ours`createdSites
      ensures Sound() && Advances()
      ensures r.Ok? ==> r.value in ours.sites && r.value == SiteFor(ours.devices, plant.id, inverters)
      ensures Settled(known, old(ours.sites), plant) ==> CreatesNothing()
      ensures ours.NoFaultSince(old(ours.calls)) && plant.detailFetched ==> r.Ok?
      ensures r.Ok? && (forall sn :: sn in inverters ==> sn == "") ==> PvProSite(plant.id) in ours.sites
    {
      r := ReconcileSite(plant, inverters);
      if forall sn :: sn in inverters ==> sn == "" {
        SiteForIsFromARegistered(ours.devices, plant.id, inverters);
      }
    }

    /**
     One plant of the cycle; a failed listing, an empty one or a failed reconciliation skips it.
     The plant stays in one site if its listing lets the site be recognised; otherwise, when
     nothing fails, every inverter it lists ends up in the plant's PVPRO site, away from home.
     */
    method SyncPlant(ghost fleet: Fleet, plant: Plant) returns (toSync: seq<string>, ghost picks: Option<seq<Pick>>)
      requires Good(fleet) && OwnInverters(fleet, plant)
      modifies ours`calls, ours`devices, ours`sites, ours`createdSites, this`known
      ensures Sound() && Advances()
      ensures Recognisable(fleet, old(ours.devices), plant) ==> Good(fleet)
      ensures !Recognisable(fleet, old(ours.devices), plant) && ours.NoFaultSince(old(ours.calls)) && plant.detailFetched ==>
                && PvProSite(plant.id) != fleet.home(plant.id)
                && forall sn :: sn in plant.inverters.value && sn != "" ==>
                     sn in ours.devices && ours.devices[sn] == PvProSite(plant.id)
      ensures RightPass(ours.fate, plant, Pass(old(Now()), Now(), picks)) && toSync == DevicesOf(plant, picks)
      ensures picks.Some? ==> forall sn :: sn in toSync <==> sn in plant.inverters.value && sn != "" && sn in known
      ensures Settled(old(known), old(ours.sites), plant) ==> CreatesNothing()
      ensures ours.NoFaultSince(old(ours.calls)) && plant.detailFetched ==> Settled(known, ours.sites, plant)
    {
      toSync, picks := [], None;
      if plant.inverters.None? || plant.inverters.value == [] {
        return;
      }
      var inverters := plant.inverters.value;
      SiteForIsHome(fleet, ours.devices, plant);
      ListedAreAtTheirSite(fleet, ours.devices, plant);
      ghost var devices0 := ours.devices;
      var site := Reconcile(plant, inverters);
      if site.Err? {
        return;
      }
      ghost var calls0, listed := ours.calls, [];
      toSync, listed := SyncDevices(inverters, site.value);
      assert inverters[..|inverters|] == inverters;
      picks := Some(listed);
      if ours.NoFaultSince(old(ours.calls)) {
        AnsweredCallsPickAll(ours.fate, calls0, ours.calls, inverters, listed, old(known).Keys, known.Keys);
      }
      if site.value == fleet.home(plant.id) {
        AddedAtHome(fleet, devices0, ours.devices, plant);
      } else {
        SiteForIsFromARegistered(devices0, plant.id, inverters);
      }
    }

    method SyncPlants(ghost fleet: Fleet, plants: seq<Plant>) returns (toSync: seq<string>, ghost passes: seq<Pass>)
      requires Good(fleet) && Listable(fleet, ours.devices, plants)
      modifies ours`calls, ours`devices, ours`sites, ours`createdSites, this`known
      ensures Good(fleet)
      ensures CycleSoFar(ours.fate, plants, |plants|, passes, toSync, old(Now()), Now())
    {
      toSync, passes := [], [];
      CycleStarts(ours.fate, plants, Now());
      hide CycleSoFar, Sound, OneSitePerPlant, Listable, RightPass, DevicesOf, Settled, NoFaultDuring, OwnInverters, Recognisable;
      for i := 0 to |plants|
        invariant Good(fleet) && Listable(fleet, ours.devices, plants)
        invariant CycleSoFar(ours.fate, plants, i, passes, toSync, old(Now()), Now())
      {
        ghost var before := Now();
        ListableHere(fleet, ours.devices, plants, i);
        var more;
        ghost var picks;
        more, picks := SyncPlant(fleet, plants[i]);
        StaysListable(fleet, before.devices, ours.devices, plants);
        ghost var pass := Pass(before, Now(), picks);
        CycleGrows(ours.fate, plants, i, passes, toSync, old(Now()), pass);
        toSync, passes := toSync + more, passes + [pass];
      }
    }

    /**
     One cycle.  What it syncs is, plant by plant and in listing order, what was picked there;
     after a failure-free cycle that is every serial listed.
     */
    method RunOnce(ghost fleet: Fleet, cycle: Cycle) returns (toSync: seq<string>, ghost passes: seq<Pass>)
      requires Good(fleet) && (cycle.Some? ==> Listable(fleet, ours.devices, cycle.value))
      modifies ours`calls, ours`devices, ours`sites, ours`createdSites, this`known
      ensures Good(fleet) && Advances()
      ensures cycle.None? ==> CreatesNothing() && toSync == []
      ensures cycle.Some? ==>
                RightPasses(ours.fate, cycle.value, passes, old(Now()), Now()) && toSync == DevicesOfAll(cycle.value, passes)
      ensures FailureFree(ours.fate, cycle, old(Now()), Now())
              ==> toSync == AllSerials(cycle.value) && AllSettled(known, ours.sites, cycle.value)
      ensures cycle.Some? && AllSettled(old(known), old(ours.sites), cycle.value) ==> CreatesNothing()
    {
      toSync, passes := [], [];
      if cycle.Some? {
        hide RightPasses, DevicesOfAll, AllSerials, Settled, Listable, OneSitePerPlant, CreatedOnce;
        toSync, passes := SyncPlants(fleet, cycle.value);
        assert cycle.value[..|cycle.value|] == cycle.value;
        if FailureFree(ours.fate, cycle, old(Now()), Now()) {
          FaultlessCycleSyncsAll(ours.fate, cycle.value, passes, old(Now()), Now());
        }
      }
    }

    /** The last completed cycle left nothing to create, if it was failure-free. */
    ghost predicate SettledAfter(cycle: Cycle, before: Snapshot)
      reads this, ours
    {
      FailureFree(ours.fate, cycle, before, Now()) ==> AllSettled(known, ours.sites, cycle.value)
    }

    method RunNext(ghost fleet: Fleet, ghost previous: Cycle, ghost before: Snapshot, cycle: Cycle) returns (toSync: seq<string>)
      requires Good(fleet) && (cycle.Some? ==> Listable(fleet, ours.devices, cycle.value)) && SettledAfter(previous, before)
      modifies ours`calls, ours`devices, ours`sites, ours`createdSites, this`known
      ensures Good(fleet) && Advances()
      ensures SettledAfter(cycle, old(Now()))
      ensures FailureFree(ours.fate, previous, before, old(Now())) && (cycle.Some? ==> SamePlants(previous.value, cycle.value))
              ==> Now().SameAs(old(Now()))
    {
      if cycle.Some? && FailureFree(ours.fate, previous, before, Now()) && SamePlants(previous.value, cycle.value) {
        SettledForTheSamePlants(known, ours.sites, previous.value, cycle.value);
      }
      hide Settled, SamePlants, OneSitePerPlant, Listable;
      ghost var passes;
      toSync, passes := RunOnce(fleet, cycle);
    }

    /**
     Any number of cycles with any failures: the plants' inverters stay in one site
     each, at most one PVPRO site is created per plant, the cache agrees with the
     registry, and a cycle after a failure-free one over the same plants creates nothing.
     `vendor` is what the vendor lists in a cycle, given what is registered by then.
     */
    method RunCycles(ghost fleet: Fleet, n: nat, vendor: (nat, map<string, string>) -> Cycle)
        returns (ghost cycles: seq<Cycle>, ghost trace: seq<Snapshot>)
      requires Good(fleet) && ListsRecognisably(fleet, vendor, ours.devices)
      modifies ours`calls, ours`devices, ours`sites, ours`createdSites, this`known
      ensures Good(fleet) && Advances()
      ensures |cycles| == n && IsTrace(ours.fate, vendor, cycles, trace) && trace[0] == old(Now()) && trace[n] == Now()
    {
      cycles, trace := [], [Now()];
      ghost var previous, before := None, Now();
      assert SettledAfter(previous, before) && IsTrace(ours.fate, vendor, cycles, trace);
      hide Settled, SamePlants, OneSitePerPlant, Listable, FailureFree, CreatedOnce, ListsRecognisably, IsTrace;
      for i := 0 to n
        invariant Good(fleet) && Advances()
        invariant |cycles| == i && |trace| == i + 1 && IsTrace(ours.fate, vendor, cycles, trace)
        invariant trace[0] == old(Now()) && trace[i] == Now()
        invariant i > 0 ==> previous == cycles[i - 1] && before == trace[i - 1]
        invariant SettledAfter(previous, before)
      {
        VendorIsListable(fleet, vendor, old(ours.devices), ours.devices, i);
        var cycle := vendor(i, ours.devices);
        var toSync := RunNext(fleet, previous, before, cycle);
        TraceGrows(ours.fate, vendor, cycles, trace, cycle, Now());
        previous, before := cycle, trace[i];
        cycles, trace := cycles + [cycle], trace + [Now()];
      }
    }
  }

  // ---------- without the hypothesis on listings ----------

  /**
   A plant with a registered inverter whose listing shows none of those registered, and
   whose home is not its PVPRO site, is split over two sites by any failure-free pass.
   */
  method PartialListingSplitsAPlant(ghost fleet: Fleet, connector: Connector, plant: Plant, registered: string, listed: string)
    requires connector.Good(fleet) && OwnInverters(fleet, plant) && plant.detailFetched
    requires registered in connector.ours.devices && fleet.plantOf(registered) == Some(plant.id)
    requires !Recognisable(fleet, connector.ours.devices, plant) && listed in plant.inverters.value && listed != ""
    modifies connector.ours`calls, connector.ours`devices, connector.ours`sites, connector.ours`createdSites, connector`known
    ensures fleet.plantOf(registered) == fleet.plantOf(listed)
    ensures connector.ours.NoFaultSince(old(connector.ours.calls)) ==>
              && registered in connector.ours.devices && listed in connector.ours.devices
              && connector.ours.devices[registered] == old(connector.ours.devices)[registered] == fleet.home(plant.id)
              && connector.ours.devices[listed] == PvProSite(plant.id) != fleet.home(plant.id)
              && !OneSitePerPlant(fleet, connector.ours.devices)
  {
    var toSync;
    ghost var picks;
    toSync, picks := connector.SyncPlant(fleet, plant);
  }
}
