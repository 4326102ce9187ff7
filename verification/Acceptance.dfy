/**
 What the shared rules mean on each path: which readings are accepted, what the stored
 row holds, and what one call leaves in the device's two timestamps and in the audit log
 (internal/domain/telemetry.go, cmd/ingestor/main.go, internal/registry/cloud_import.go,
 internal/registry/sandbox.go).  Stated in figures, apart from the rules' own code.
 */
module Acceptance {
  import opened Options
  import opened TelemetryRules
  import opened Ingest
  import opened Sandbox

  /** At most one and a half times the system's size, or 100 kW for a site without one. */
  predicate BelowCeiling(kW: real, systemSizeKW: Option<real>) {
    if systemSizeKW.Some? && systemSizeKW.value > 0.0 then kW <= systemSizeKW.value + systemSizeKW.value / 2.0 else kW <= 100.0
  }

  predicate Acceptable(deviceId: string, timestamp: Option<Instant>, powerKW: real, energyKWhTotal: real, status: string,
                       pvPowerKW: Option<real>, batterySOCPct: Option<real>, loadPowerKW: Option<real>, systemSizeKW: Option<real>) {
    && deviceId != "" && timestamp.Some?
    && 0.0 <= energyKWhTotal
    && 0.0 <= powerKW && BelowCeiling(powerKW, systemSizeKW)
    && (pvPowerKW.Some? ==> 0.0 <= pvPowerKW.value && BelowCeiling(pvPowerKW.value, systemSizeKW))
    && (batterySOCPct.Some? ==> 0.0 <= batterySOCPct.value <= 100.0)
    && (loadPowerKW.Some? ==> 0.0 <= loadPowerKW.value)
    && (status == "ok" || status == "fault" || status == "offline" || status == "")
  }

  /** Live up to a quarter of an hour, in nanoseconds. */
  predicate IsLive(ts: Instant, now: Instant) {
    now - ts <= 900_000_000_000
  }

  lemma RulesMeanAcceptable(p: Payload, systemSizeKW: Option<real>)
    ensures Validate(p, PowerCeilingKW(systemSizeKW)).Ok?
            <==> Acceptable(p.deviceId, p.timestamp, p.powerKW, p.energyKWhTotal, p.status, p.pvPowerKW, p.batterySOCPct, p.loadPowerKW, systemSizeKW)
    ensures Validate(p, PowerCeilingKW(systemSizeKW)).Ok? ==> p.timestamp == Some(Validate(p, PowerCeilingKW(systemSizeKW)).value)
  {
  }

  predicate Breaks(p: Payload, systemSizeKW: Option<real>, rule: ValidationError) {
    match rule
    case MissingDeviceId => p.deviceId == ""
    case InvalidTimestamp => p.timestamp.None?
    case NegativeEnergy => p.energyKWhTotal < 0.0
    case NegativePower => p.powerKW < 0.0
    case PowerAboveCeiling => !BelowCeiling(p.powerKW, systemSizeKW)
    case NegativePVPower => p.pvPowerKW.Some? && p.pvPowerKW.value < 0.0
    case PVPowerAboveCeiling => p.pvPowerKW.Some? && !BelowCeiling(p.pvPowerKW.value, systemSizeKW)
    case SOCOutOfRange => p.batterySOCPct.Some? && !(0.0 <= p.batterySOCPct.value <= 100.0)
    case NegativeLoadPower => p.loadPowerKW.Some? && p.loadPowerKW.value < 0.0
    case UnknownStatus => p.status != "ok" && p.status != "fault" && p.status != "offline" && p.status != ""
  }

  lemma RejectionNamesABrokenRule(p: Payload, systemSizeKW: Option<real>)
    requires Validate(p, PowerCeilingKW(systemSizeKW)).Err?
    ensures Breaks(p, systemSizeKW, Validate(p, PowerCeilingKW(systemSizeKW)).error)
  {
  }

  /** The latest earlier reading of the device has a greater counter. */
  ghost predicate FallsBelowItsPredecessor(t: Table, device: string, ts: Instant, energyKWhTotal: real) {
    exists k :: k in t && k.device == device && k.ts < ts && energyKWhTotal < t[k].reading.energyKWhTotal
                && forall j :: j in t && j.device == device && j.ts < ts ==> j.ts <= k.ts
  }

  lemma ResetMeansFalling(t: Table, device: string, ts: Instant, energyKWhTotal: real)
    ensures DetectEnergyReset(PreviousEnergy(t, device, ts), energyKWhTotal) <==> FallsBelowItsPredecessor(t, device, ts, energyKWhTotal)
  {
    var p := Predecessor(t, device, ts);
    if p.Some? {
      assert Key(device, p.value) in t;
    }
    if FallsBelowItsPredecessor(t, device, ts, energyKWhTotal) {
      var k :| k in t && k.device == device && k.ts < ts && energyKWhTotal < t[k].reading.energyKWhTotal
               && forall j :: j in t && j.device == device && j.ts < ts ==> j.ts <= k.ts;
      assert k == Key(device, p.value);
    }
  }

  /** The row holds each field of what was sent under its own name. */
  ghost predicate HoldsAsSent(row: Row, siteId: string, powerKW: real, energyKWhTotal: real, status: string, pvPowerKW: Option<real>,
                              batterySOCPct: Option<real>, loadPowerKW: Option<real>, extras: Extras, ts: Instant, now: Instant) {
    && row.reading.siteId == siteId
    && row.reading.powerKW == powerKW && row.reading.energyKWhTotal == energyKWhTotal
    && row.reading.status == (if status == "" then "ok" else status)
    && (row.reading.provenance == Metered <==> IsLive(ts, now))
    && row.reading.pvPowerKW == pvPowerKW && row.reading.batterySOCPct == batterySOCPct
    && row.reading.loadPowerKW == loadPowerKW && row.reading.extras == extras
  }

  /** At most the row at (device, ts) is new. */
  ghost predicate AddsOnly(t: Table, t': Table, device: string, ts: Instant) {
    t'.Keys == t.Keys + {Key(device, ts)} && forall k :: k in t ==> t'[k] == t[k]
  }

  // ---------- one reading into the table ----------

  /** Judging `p` at a table: accepted exactly if the rules hold, and then stored as sent unless the key is taken. */
  lemma JudgedAsSent(t: Table, device: string, site: Device, p: Payload, now: Instant, f: Faults)
    ensures var (t', v) := Judge(t, device, site, p, now, f);
            && (v.Stored? <==> !f.insert && Acceptable(p.deviceId, p.timestamp, p.powerKW, p.energyKWhTotal, p.status, p.pvPowerKW,
                                          p.batterySOCPct, p.loadPowerKW, site.systemSizeKW))
            && (!v.Stored? ==> t' == t)
            && (v.Stored? ==>
                  && p.timestamp == Some(v.ts) && v.duplicate == (Key(device, v.ts) in t) && AddsOnly(t, t', device, v.ts)
                  && (!v.duplicate ==>
                        var row := t'[Key(device, v.ts)];
                        && HoldsAsSent(row, site.siteId, p.powerKW, p.energyKWhTotal, p.status, p.pvPowerKW, p.batterySOCPct,
                                       p.loadPowerKW, p.extras, v.ts, now)
                        && (row.energyReset <==> !f.previousLookup && FallsBelowItsPredecessor(t, device, v.ts, p.energyKWhTotal))))
  {
    RulesMeanAcceptable(p, site.systemSizeKW);
    if Validate(p, PowerCeilingKW(site.systemSizeKW)).Ok? {
      ResetMeansFalling(t, device, p.timestamp.value, p.energyKWhTotal);
    }
    hide Validate, PowerCeilingKW, Acceptable, PreviousEnergy, DetectEnergyReset, FallsBelowItsPredecessor;
  }

  /** The later of the two instants, if there was one before. */
  ghost predicate SeenForward(before: map<string, Instant>, after: map<string, Instant>, device: string, ts: Instant) {
    after == before[device := if device in before && before[device] > ts then before[device] else ts]
  }

  /** One audit row more, processed if and only if the reading was accepted and with an error otherwise, unless it could not be marked. */
  ghost predicate AuditedOnce(before: seq<AuditRow>, after: seq<AuditRow>, device: string, raw: RawPayload, accepted: bool, unmarked: bool) {
    && |after| == |before| + 1 && before <= after
    && after[|before|].deviceId == device && after[|before|].raw == raw
    && (after[|before|].processed <==> accepted && !unmarked) && (after[|before|].error.None? <==> accepted || unmarked)
  }

  // ---------- one MQTT message ----------

  /**
   A message is accepted if and only if its device is known and not revoked, every rule
   holds, and none of the three statements it depends on fails; on a new key the row then
   holds it as sent, and otherwise the table is untouched.
   */
  lemma MessageIsStoredAsSent(st: State, device: string, raw: RawPayload, now: Instant, f: Faults)
    requires !raw.Cloud?
    ensures var (st', v) := Handled(st, device, raw, now, f);
            && (v.Stored? <==>
                  && !f.audit && !f.deviceLookup && !f.insert
                  && raw.Mqtt? && device in st.devices && !st.devices[device].revoked
                  && var p := raw.payload;
                     Acceptable(p.deviceId, p.timestamp, p.powerKW, p.energyKWhTotal, p.status, p.pvPowerKW, p.batterySOCPct,
                                p.loadPowerKW, st.devices[device].systemSizeKW))
            && (!v.Stored? ==> st'.telemetry == st.telemetry)
            && (v.Stored? ==>
                  var p := raw.payload;
                  && p.timestamp == Some(v.ts) && v.duplicate == (Key(device, v.ts) in st.telemetry)
                  && AddsOnly(st.telemetry, st'.telemetry, device, v.ts)
                  && (!v.duplicate ==>
                        var row := st'.telemetry[Key(device, v.ts)];
                        && HoldsAsSent(row, st.devices[device].siteId, p.powerKW, p.energyKWhTotal, p.status, p.pvPowerKW,
                                       p.batterySOCPct, p.loadPowerKW, p.extras, v.ts, now)
                        && (row.energyReset <==> !f.previousLookup && FallsBelowItsPredecessor(st.telemetry, device, v.ts, p.energyKWhTotal))))
  {
    if raw.Mqtt? && device in st.devices {
      JudgedAsSent(st.telemetry, device, st.devices[device], raw.payload, now, f);
    }
    hide Judge, Acceptable, HoldsAsSent, FallsBelowItsPredecessor, AddsOnly;
  }

  /** Why a message is not accepted: the first thing found wrong with it. */
  lemma MessageIsRejectedFor(st: State, device: string, raw: RawPayload, now: Instant, f: Faults)
    requires !raw.Cloud? && Handled(st, device, raw, now, f).1.Rejected?
    ensures match Handled(st, device, raw, now, f).1.error
            case Unmarshal => raw.Malformed?
            case UnknownDevice => raw.Mqtt? && (f.deviceLookup || device !in st.devices)
            case DeviceRevoked => raw.Mqtt? && device in st.devices && st.devices[device].revoked
            case Invalid(rule) =>
              raw.Mqtt? && device in st.devices && !st.devices[device].revoked
              && Breaks(raw.payload, st.devices[device].systemSizeKW, rule)
            case DatabaseError => f.audit || raw.NotJson? || f.insert
            case InvalidToken => false
  {
    if raw.Mqtt? && device in st.devices && Validate(raw.payload, PowerCeilingKW(st.devices[device].systemSizeKW)).Err? {
      RejectionNamesABrokenRule(raw.payload, st.devices[device].systemSizeKW);
    }
    hide Breaks, Validate;
  }

  /** What else a message leaves behind, accepted or not; one that cannot be audited leaves nothing. */
  lemma MessageIsAccountedFor(st: State, device: string, raw: RawPayload, now: Instant, f: Faults)
    requires !raw.Cloud?
    ensures var (st', v) := Handled(st, device, raw, now, f);
            if f.audit || raw.NotJson? then st' == st
            else
              && st'.devices == st.devices
              && st'.lastContactAt == (if device in st.devices && !f.contact then st.lastContactAt[device := now] else st.lastContactAt)
              && (if v.Stored? && !f.lastSeen then SeenForward(st.lastSeenAt, st'.lastSeenAt, device, v.ts) else st'.lastSeenAt == st.lastSeenAt)
              && AuditedOnce(st.audit, st'.audit, device, raw, v.Stored?, f.markAudit)
  {
    hide JudgeMessage;
  }

  // ---------- one cloud submission ----------

  /** The reading of a batch at a state, judged as sent and marked in the audit log, whether or not it got a row there. */
  lemma ReadingIsStoredAsSent(st: State, device: string, site: Device, r: CloudReading, now: Instant, f: Faults)
    ensures var (st', v) := BatchStep(st, device, site, r, now, f);
            && (v.Stored? <==> !f.insert && Acceptable(device, r.timestamp, r.powerKW, r.energyKWhTotal, r.status, r.pvPowerKW, r.batterySOCPct,
                                          r.loadPowerKW, site.systemSizeKW))
            && (!v.Stored? ==> st'.telemetry == st.telemetry)
            && (v.Stored? ==>
                  && r.timestamp == Some(v.ts) && v.duplicate == (Key(device, v.ts) in st.telemetry)
                  && AddsOnly(st.telemetry, st'.telemetry, device, v.ts)
                  && (!v.duplicate ==>
                        var row := st'.telemetry[Key(device, v.ts)];
                        && HoldsAsSent(row, site.siteId, r.powerKW, r.energyKWhTotal, r.status, r.pvPowerKW, r.batterySOCPct,
                                       r.loadPowerKW, r.extras, v.ts, now)
                        && (row.energyReset <==> !f.previousLookup && FallsBelowItsPredecessor(st.telemetry, device, v.ts, r.energyKWhTotal))))
            && (if f.audit then st'.audit == st.audit else AuditedOnce(st.audit, st'.audit, device, Cloud(r), v.Stored?, f.markAudit))
            && st'.devices == st.devices && st'.lastSeenAt == st.lastSeenAt && st'.lastContactAt == st.lastContactAt
  {
    JudgedAsSent(st.telemetry, device, site, CloudPayload(device, r), now, f);
    hide Judge, Acceptable, HoldsAsSent, FallsBelowItsPredecessor, AddsOnly;
  }

  /** No statement fails. */
  predicate Faultless(f: Faults) {
    !f.audit && !f.contact && !f.deviceLookup && !f.previousLookup && !f.insert && !f.lastSeen && !f.markAudit
  }

  /** Position `i` of a batch: its verdict, its row if it was the first with its key, and its audit row. */
  ghost predicate ReadingAsSent(device: string, site: Device, r: CloudReading, now: Instant, before: State, after: State, v: Verdict, i: nat) {
    && (v.Stored? <==> Acceptable(device, r.timestamp, r.powerKW, r.energyKWhTotal, r.status, r.pvPowerKW, r.batterySOCPct,
                                  r.loadPowerKW, site.systemSizeKW))
    && (v.Stored? ==> r.timestamp == Some(v.ts) && Key(device, v.ts) in after.telemetry)
    && (v.Stored? && !v.duplicate ==>
          && Key(device, v.ts) !in before.telemetry
          && HoldsAsSent(after.telemetry[Key(device, v.ts)], site.siteId, r.powerKW, r.energyKWhTotal, r.status, r.pvPowerKW,
                         r.batterySOCPct, r.loadPowerKW, r.extras, v.ts, now))
    && |before.audit| + i < |after.audit|
    && var row := after.audit[|before.audit| + i];
       row.deviceId == device && row.raw == Cloud(r) && (row.processed <==> v.Stored?) && (row.error.None? <==> v.Stored?)
  }

  lemma ReadingStaysAsSent(device: string, site: Device, r: CloudReading, now: Instant, before: State, mid: State, after: State, v: Verdict, i: nat)
    requires ReadingAsSent(device, site, r, now, before, mid, v, i)
    requires mid.audit <= after.audit && forall k :: k in mid.telemetry ==> k in after.telemetry && after.telemetry[k] == mid.telemetry[k]
    ensures ReadingAsSent(device, site, r, now, before, after, v, i)
  {
    hide Acceptable, HoldsAsSent;
  }

  ghost predicate OnlyAddsRows(before: State, after: State) {
    && before.audit <= after.audit && (forall k :: k in before.telemetry ==> k in after.telemetry && after.telemetry[k] == before.telemetry[k])
    && after.devices == before.devices && after.lastSeenAt == before.lastSeenAt && after.lastContactAt == before.lastContactAt
  }

  lemma LastReadingAsSent(st: State, mid: State, device: string, site: Device, r: CloudReading, now: Instant, f: Faults, n: nat)
    requires Faultless(f) && OnlyAddsRows(st, mid) && |mid.audit| == |st.audit| + n
    ensures var (after, v) := BatchStep(mid, device, site, r, now, f);
            ReadingAsSent(device, site, r, now, st, after, v, n) && OnlyAddsRows(mid, after) && |after.audit| == |mid.audit| + 1
  {
    ReadingIsStoredAsSent(mid, device, site, r, now, f);
    hide Acceptable, HoldsAsSent, BatchStep, FallsBelowItsPredecessor;
  }

  /** A whole batch as sent. */
  ghost predicate IsAsSent(device: string, site: Device, rs: seq<CloudReading>, now: Instant, st: State, after: State, vs: seq<Verdict>) {
    && |vs| == |rs| && |after.audit| == |st.audit| + |rs| && OnlyAddsRows(st, after)
    && forall i :: 0 <= i < |rs| ==> ReadingAsSent(device, site, rs[i], now, st, after, vs[i], i)
  }

  lemma OneMoreAsSent(st: State, mid: State, after: State, device: string, site: Device, rs: seq<CloudReading>, now: Instant,
                      vs: seq<Verdict>, v: Verdict)
    requires rs != [] && IsAsSent(device, site, rs[..|rs| - 1], now, st, mid, vs)
    requires OnlyAddsRows(mid, after) && |after.audit| == |mid.audit| + 1
    requires ReadingAsSent(device, site, rs[|rs| - 1], now, st, after, v, |rs| - 1)
    ensures IsAsSent(device, site, rs, now, st, after, vs + [v])
  {
    hide ReadingAsSent;
    forall i | 0 <= i < |vs| ensures ReadingAsSent(device, site, rs[i], now, st, after, vs[i], i) {
      assert rs[..|rs| - 1][i] == rs[i];
      ReadingStaysAsSent(device, site, rs[i], now, st, mid, after, vs[i], i);
    }
  }

  lemma {:induction false} BatchAsSent(st: State, device: string, site: Device, rs: seq<CloudReading>, now: Instant, fs: nat -> Faults)
    requires forall i :: 0 <= i < |rs| ==> Faultless(fs(i))
    ensures var (st', vs) := Batch(st, device, site, rs, now, fs); IsAsSent(device, site, rs, now, st, st', vs)
    decreases |rs|
  {
    if rs != [] {
      hide BatchStep, ReadingAsSent;
      var n := |rs| - 1;
      BatchAsSent(st, device, site, rs[..n], now, fs);
      var (mid, vs) := Batch(st, device, site, rs[..n], now, fs);
      LastReadingAsSent(st, mid, device, site, rs[n], now, fs(n), n);
      var (after, v) := BatchStep(mid, device, site, rs[n], now, fs(n));
      OneMoreAsSent(st, mid, after, device, site, rs, now, vs, v);
    }
  }

  /**
   A submission with a valid token for a known, unrevoked device: each reading is accepted
   if and only if every rule holds for it; the row of the first with its key holds it as
   sent, and each leaves its own audit row.
   */
  lemma SubmissionIsStoredAsSent(st: State, device: string, tokenValid: bool, rs: seq<CloudReading>, now: Instant,
                                 fs: nat -> Faults, last: Faults)
    requires Faultless(last) && forall i :: 0 <= i < |rs| ==> Faultless(fs(i))
    ensures var (st', r) := Submitted(st, device, tokenValid, rs, now, fs, last);
            && (r.Ok? <==> tokenValid && device in st.devices && !st.devices[device].revoked)
            && (r.Err? ==> st' == st && r.error == if !tokenValid then InvalidToken else if device !in st.devices then UnknownDevice else DeviceRevoked)
            && (r.Ok? ==>
                  && |r.value| == |rs| && |st'.audit| == |st.audit| + |rs|
                  && (forall i :: 0 <= i < |rs| ==> ReadingAsSent(device, st.devices[device], rs[i], now, st, st', r.value[i], i)))
  {
    if tokenValid && device in st.devices && !st.devices[device].revoked {
      var site := st.devices[device];
      BatchAsSent(st, device, site, rs, now, fs);
      var (mid, vs) := Batch(st, device, site, rs, now, fs);
      var st' := Submitted(st, device, tokenValid, rs, now, fs, last).0;
      hide Batch, LatestStored, ReadingAsSent;
      forall i | 0 <= i < |rs| ensures ReadingAsSent(device, site, rs[i], now, st, st', vs[i], i) {
        ReadingStaysAsSent(device, site, rs[i], now, st, mid, st', vs[i], i);
      }
    }
  }

  /** Moved forward to the latest of the accepted readings, if any was accepted. */
  ghost predicate SeenUpTo(before: map<string, Instant>, after: map<string, Instant>, device: string, vs: seq<Verdict>) {
    && ((forall i :: 0 <= i < |vs| ==> !vs[i].Stored?) ==> after == before)
    && forall i :: 0 <= i < |vs| && vs[i].Stored? && (forall j :: 0 <= j < |vs| && vs[j].Stored? ==> vs[j].ts <= vs[i].ts)
                   ==> SeenForward(before, after, device, vs[i].ts)
  }

  lemma LatestMovesForward(seen: map<string, Instant>, device: string, vs: seq<Verdict>)
    ensures var latest := LatestStored(vs);
            SeenUpTo(seen, if latest.None? then seen else AdvanceLastSeen(seen, device, latest.value), device, vs)
  {
    LatestIsTheLatest(vs);
    hide LatestStored;
  }

  /** Then last_contact_at is now, and last_seen_at has moved forward. */
  lemma SubmissionMovesTheTimestamps(st: State, device: string, rs: seq<CloudReading>, now: Instant, fs: nat -> Faults, last: Faults)
    requires Faultless(last) && (forall i :: 0 <= i < |rs| ==> Faultless(fs(i))) && device in st.devices && !st.devices[device].revoked
    ensures var (st', r) := Submitted(st, device, true, rs, now, fs, last);
            && r.Ok? && st'.devices == st.devices && st'.lastContactAt == st.lastContactAt[device := now]
            && SeenUpTo(st.lastSeenAt, st'.lastSeenAt, device, r.value)
  {
    hide Batch, LatestStored, ReadingAsSent, SeenUpTo, AdvanceLastSeen;
    BatchAsSent(st, device, st.devices[device], rs, now, fs);
    LatestMovesForward(st.lastSeenAt, device, Batch(st, device, st.devices[device], rs, now, fs).1);
  }

  lemma {:induction false} LatestIsTheLatest(vs: seq<Verdict>)
    ensures LatestStored(vs).None? <==> forall i :: 0 <= i < |vs| ==> !vs[i].Stored?
    ensures LatestStored(vs).Some? ==>
              exists i :: 0 <= i < |vs| && vs[i].Stored? && LatestStored(vs) == Some(vs[i].ts)
                          && forall j :: 0 <= j < |vs| && vs[j].Stored? ==> vs[j].ts <= vs[i].ts
    decreases |vs|
  {
    if vs != [] {
      LatestIsTheLatest(vs[..|vs| - 1]);
    }
  }

  // ---------- one uploaded row ----------

  /** The verdict on a row of an upload, given the counter of the last accepted one. */
  lemma RowIsJudgedByTheRules(r: ParsedRow, previous: Option<real>, systemSizeKW: Option<real>, now: Instant)
    ensures var res := JudgeRow(r, previous, PowerCeilingKW(systemSizeKW), now);
            && res.row == r
            && (res.Accepted() <==>
                  && r.ts.Some? && r.power.Some? && r.energy.Some?
                  && Acceptable("sandbox", r.ts, r.power.value, r.energy.value, r.status, None, None, None, systemSizeKW))
            && (res.rejection == Some(Unparseable) <==> r.ts.None? || r.power.None? || r.energy.None?)
            && res.provenance == (if !res.Accepted() then None else if IsLive(r.ts.value, now) then Some(Metered) else Some(Backfilled))
            && (res.isReset <==> res.Accepted() && previous.Some? && r.energy.value < previous.value)
  {
    if !r.ParseFailed() {
      RulesMeanAcceptable(SandboxPayload(r), systemSizeKW);
    }
    hide Validate, PowerCeilingKW, Acceptable;
  }

  ghost predicate FallsBelowTheLastAccepted(results: seq<RowResult>, energy: real) {
    exists j :: 0 <= j < |results| && results[j].Accepted() && results[j].row.energy.Some? && energy < results[j].row.energy.value
                && forall m :: j < m < |results| ==> !results[m].Accepted()
  }

  /** The results of an upload: each row by the rules, a reset if and only if the last accepted row before it had a greater counter. */
  lemma {:induction false} UploadIsJudgedByTheRules(rows: seq<ParsedRow>, systemSizeKW: Option<real>, now: Instant, i: nat)
    requires i < |rows|
    ensures var results := Judged(rows, PowerCeilingKW(systemSizeKW), now);
            var r, res := rows[i], results[i];
            && res.row == r
            && (res.Accepted() <==>
                  && r.ts.Some? && r.power.Some? && r.energy.Some?
                  && Acceptable("sandbox", r.ts, r.power.value, r.energy.value, r.status, None, None, None, systemSizeKW))
            && res.provenance == (if !res.Accepted() then None else if IsLive(r.ts.value, now) then Some(Metered) else Some(Backfilled))
            && (res.isReset <==> res.Accepted() && FallsBelowTheLastAccepted(results[..i], r.energy.value))
    decreases |rows|
  {
    var n := |rows| - 1;
    var before := Judged(rows[..n], PowerCeilingKW(systemSizeKW), now);
    assert Judged(rows, PowerCeilingKW(systemSizeKW), now)[..i] == before[..i];
    if i < n {
      UploadIsJudgedByTheRules(rows[..n], systemSizeKW, now, i);
    } else {
      RowIsJudgedByTheRules(rows[n], PreviousEnergyIn(before), systemSizeKW, now);
      if rows[n].energy.Some? {
        FallingIsBelowTheLast(before, rows[n].energy.value);
      }
      assert before[..n] == before;
    }
  }

  lemma FallingIsBelowTheLast(results: seq<RowResult>, energy: real)
    ensures PreviousEnergyIn(results).Some? && energy < PreviousEnergyIn(results).value <==> FallsBelowTheLastAccepted(results, energy)
  {
    LastAcceptedIsTheLast(results);
    hide LastAccepted;
  }

  lemma {:induction false} LastAcceptedIsTheLast(results: seq<RowResult>)
    ensures LastAccepted(results).None? <==> forall j :: 0 <= j < |results| ==> !results[j].Accepted()
    ensures LastAccepted(results).Some? ==>
              exists j :: 0 <= j < |results| && results[j].Accepted() && LastAccepted(results) == Some(results[j].row)
                          && forall m :: j < m < |results| ==> !results[m].Accepted()
    decreases |results|
  {
    if results != [] && !results[|results| - 1].Accepted() {
      LastAcceptedIsTheLast(results[..|results| - 1]);
    }
  }
}
