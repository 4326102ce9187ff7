/**
 The ingestion pipeline and its two live drivers: the MQTT ingestor
 (cmd/ingestor/main.go) and cloud import (internal/registry/cloud_import.go).
 The night flag is not part of this model.
 */
module Ingest {
  import opened Options
  import opened TelemetryRules

  datatype Key = Key(device: string, ts: Instant)

  /** A stored reading: the measured values and, apart from them, the one flag that depends on its neighbours. */
  datatype Reading = Reading(
    siteId: string,
    powerKW: real,
    energyKWhTotal: real,
    status: string,
    provenance: Provenance,
    pvPowerKW: Option<real>,
    batterySOCPct: Option<real>,
    loadPowerKW: Option<real>,
    extras: Extras)

  datatype Row = Row(reading: Reading, energyReset: bool)

  /** The telemetry table; its primary key is (device_id, ts). */
  type Table = map<Key, Row>

  /** A device joined with its site. */
  datatype Device = Device(siteId: string, revoked: bool, systemSizeKW: Option<real>)

  datatype CloudReading = CloudReading(
    timestamp: Option<Instant>,
    powerKW: real,
    energyKWhTotal: real,
    status: string,
    pvPowerKW: Option<real>,
    batterySOCPct: Option<real>,
    loadPowerKW: Option<real>,
    extras: Extras)

  /** Bytes the jsonb column of the audit log refuses; JSON that is no reading; a reading; a cloud reading. */
  datatype RawPayload = NotJson | Malformed | Mqtt(payload: Payload) | Cloud(reading: CloudReading)

  datatype IngestError =
    | Unmarshal
    | UnknownDevice
    | DeviceRevoked
    | InvalidToken
    | Invalid(reason: ValidationError)
    | DatabaseError

  datatype AuditRow = AuditRow(deviceId: string, raw: RawPayload, processed: bool, error: Option<IngestError>)

  datatype State = State(
    devices: map<string, Device>,
    telemetry: Table,
    lastSeenAt: map<string, Instant>,
    lastContactAt: map<string, Instant>,
    audit: seq<AuditRow>)

  /** Which database statements of one message fail. */
  datatype Faults = Faults(
    audit: bool,
    contact: bool,
    deviceLookup: bool,
    previousLookup: bool,
    insert: bool,
    lastSeen: bool,
    markAudit: bool)

  const NO_FAULTS: Faults := Faults(false, false, false, false, false, false, false)

  // ---------- single statements ----------

  /** The instant of the device's last reading strictly before `ts`, by ts and never by arrival. */
  ghost predicate IsPredecessor(keys: set<Key>, device: string, ts: Instant, p: Option<Instant>) {
    && (p.Some? ==> p.value < ts && Key(device, p.value) in keys)
    && (forall k :: k in keys && k.device == device && k.ts < ts ==> p.Some? && k.ts <= p.value)
  }

  ghost function Predecessor(t: Table, device: string, ts: Instant): (p: Option<Instant>)
    ensures IsPredecessor(t.Keys, device, ts, p)
  {
    PredecessorExists(t.Keys, device, ts);
    var p :| IsPredecessor(t.Keys, device, ts, p);
    p
  }

  lemma PredecessorExists(keys: set<Key>, device: string, ts: Instant)
    ensures exists p :: IsPredecessor(keys, device, ts, p)
    decreases keys
  {
    if keys == {} {
      assert IsPredecessor(keys, device, ts, None);
    } else {
      var k :| k in keys;
      PredecessorExists(keys - {k}, device, ts);
      var p :| IsPredecessor(keys - {k}, device, ts, p);
      assert k == Key(k.device, k.ts);
      if k.device == device && k.ts < ts && (p.None? || p.value < k.ts) {
        assert IsPredecessor(keys, device, ts, Some(k.ts));
      } else {
        assert forall j :: j in keys ==> j == k || j in keys - {k};
        assert IsPredecessor(keys, device, ts, p);
      }
    }
  }

  ghost function PreviousEnergy(t: Table, device: string, ts: Instant): Option<real> {
    var p := Predecessor(t, device, ts);
    if p.None? then None else Some(t[Key(device, p.value)].reading.energyKWhTotal)
  }

  /** ON CONFLICT (device_id, ts) DO NOTHING. */
  function InsertReading(t: Table, k: Key, row: Row): Table {
    if k in t then t else t[k := row]
  }

  /** Forward only. */
  function AdvanceLastSeen(seen: map<string, Instant>, device: string, ts: Instant): map<string, Instant> {
    if device in seen && seen[device] >= ts then seen else seen[device := ts]
  }

  /** An UPDATE of devices touches nothing when the device does not exist. */
  function UpdateLastContact(st: State, device: string, now: Instant): State {
    if device in st.devices then st.(lastContactAt := st.lastContactAt[device := now]) else st
  }

  function ToReading(p: Payload, siteId: string, ts: Instant, now: Instant): Reading {
    Reading(siteId, p.powerKW, p.energyKWhTotal, CoalesceStatus(p.status), ClassifyProvenance(ts, now),
            p.pvPowerKW, p.batterySOCPct, p.loadPowerKW, p.extras)
  }

  function CloudPayload(device: string, r: CloudReading): Payload {
    Payload(device, r.timestamp, r.powerKW, r.energyKWhTotal, r.status, r.pvPowerKW, r.batterySOCPct, r.loadPowerKW, r.extras)
  }

  // ---------- one reading through the shared middle of both drivers ----------

  datatype Verdict = Rejected(error: IngestError) | Stored(ts: Instant, duplicate: bool)

  /** Validate, classify, detect a reset against the chronological predecessor, insert. */
  ghost function Judge(t: Table, device: string, site: Device, p: Payload, now: Instant, f: Faults): (Table, Verdict) {
    match Validate(p, PowerCeilingKW(site.systemSizeKW))
    case Err(e) => (t, Rejected(Invalid(e)))
    case Ok(ts) =>
      if f.insert then (t, Rejected(DatabaseError))
      else
        var reset := !f.previousLookup && DetectEnergyReset(PreviousEnergy(t, device, ts), p.energyKWhTotal);
        (InsertReading(t, Key(device, ts), Row(ToReading(p, site.siteId, ts, now), reset)), Stored(ts, Key(device, ts) in t))
  }

  /** The audit row a message leaves behind. */
  function Audited(device: string, raw: RawPayload, outcome: Option<IngestError>, f: Faults): AuditRow {
    AuditRow(device, raw, outcome.None? && !f.markAudit, if f.markAudit then None else outcome)
  }

  function ErrorOf(v: Verdict): Option<IngestError> {
    if v.Rejected? then Some(v.error) else None
  }

  // ---------- the MQTT driver ----------

  ghost function JudgeMessage(st: State, device: string, raw: RawPayload, now: Instant, f: Faults): (Table, Verdict)
    requires !raw.Cloud?
  {
    if raw.Malformed? || raw.NotJson? then (st.telemetry, Rejected(Unmarshal))
    else if f.deviceLookup || device !in st.devices then (st.telemetry, Rejected(UnknownDevice))
    else if st.devices[device].revoked then (st.telemetry, Rejected(DeviceRevoked))
    else Judge(st.telemetry, device, st.devices[device], raw.payload, now, f)
  }

  lemma JudgeReadsTelemetryAndDevices(a: State, b: State, device: string, raw: RawPayload, now: Instant, f: Faults)
    requires !raw.Cloud? && a.telemetry == b.telemetry && a.devices == b.devices
    ensures JudgeMessage(a, device, raw, now, f) == JudgeMessage(b, device, raw, now, f)
  {
  }

  /** Everything one MQTT message does to the database, and the verdict on it; without an audit row it is dropped. */
  ghost function Handled(st: State, device: string, raw: RawPayload, now: Instant, f: Faults): (State, Verdict)
    requires !raw.Cloud?
  {
    if f.audit || raw.NotJson? then (st, Rejected(DatabaseError))
    else
      var st1 := if f.contact then st else UpdateLastContact(st, device, now);
      var (t, verdict) := JudgeMessage(st, device, raw, now, f);
      var seen :=
        if verdict.Stored? && !f.lastSeen then AdvanceLastSeen(st.lastSeenAt, device, verdict.ts) else st.lastSeenAt;
      (st1.(telemetry := t, lastSeenAt := seen, audit := st.audit + [Audited(device, raw, ErrorOf(verdict), f)]), verdict)
  }

  // ---------- the cloud driver ----------

  /** One reading of a batch: audit, judge, mark. A failed audit insert leaves no row but does not stop the reading. */
  ghost function BatchStep(st: State, device: string, site: Device, r: CloudReading, now: Instant, f: Faults): (State, Verdict) {
    var (t, verdict) := Judge(st.telemetry, device, site, CloudPayload(device, r), now, f);
    var audit := if f.audit then st.audit else st.audit + [Audited(device, Cloud(r), ErrorOf(verdict), f)];
    (st.(telemetry := t, audit := audit), verdict)
  }

  ghost function Batch(st: State, device: string, site: Device, rs: seq<CloudReading>, now: Instant, fs: nat -> Faults): (State, seq<Verdict>) {
    if rs == [] then (st, [])
    else
      var n := |rs| - 1;
      var (before, verdicts) := Batch(st, device, site, rs[..n], now, fs);
      var (after, verdict) := BatchStep(before, device, site, rs[n], now, fs(n));
      (after, verdicts + [verdict])
  }

  /** The latest stored instant of a batch. */
  function LatestStored(vs: seq<Verdict>): Option<Instant> {
    if vs == [] then None
    else
      var before, v := LatestStored(vs[..|vs| - 1]), vs[|vs| - 1];
      if v.Stored? && (before.None? || v.ts > before.value) then Some(v.ts) else before
  }

  ghost function Submitted(st: State, device: string, tokenValid: bool, rs: seq<CloudReading>, now: Instant,
                           fs: nat -> Faults, last: Faults): (State, Result<seq<Verdict>, IngestError>)
  {
    if !tokenValid then (st, Err(InvalidToken))
    else if last.deviceLookup || device !in st.devices then (st, Err(UnknownDevice))
    else if st.devices[device].revoked then (st, Err(DeviceRevoked))
    else
      var (st1, verdicts) := Batch(st, device, st.devices[device], rs, now, fs);
      var st2 := if last.contact then st1 else UpdateLastContact(st1, device, now);
      var latest := LatestStored(verdicts);
      var st3 := if latest.None? || last.lastSeen then st2
                 else st2.(lastSeenAt := AdvanceLastSeen(st2.lastSeenAt, device, latest.value));
      (st3, Ok(verdicts))
  }

  // ---------- the database and the drivers as code ----------

  class Database {
    var devices: map<string, Device>
    var telemetry: Table
    var lastSeenAt: map<string, Instant>
    var lastContactAt: map<string, Instant>
    var audit: seq<AuditRow>

    ghost function Contents(): State
      reads this
    {
      State(devices, telemetry, lastSeenAt, lastContactAt, audit)
    }

    method InsertAudit(device: string, raw: RawPayload, fails: bool) returns (id: Option<nat>)
      modifies this`audit
      ensures id == if fails || raw.NotJson? then None else Some(|old(audit)|)
      ensures audit == if fails || raw.NotJson? then old(audit) else old(audit) + [AuditRow(device, raw, false, None)]
    {
      if fails || raw.NotJson? {
        return None;
      }
      id := Some(|audit|);
      audit := audit + [AuditRow(device, raw, false, None)];
    }

    method MarkAudit(id: nat, error: Option<IngestError>, fails: bool)
      requires id < |audit|
      modifies this`audit
      ensures audit == if fails then old(audit)
                       else if error.Some? then old(audit)[id := old(audit)[id].(error := error)]
                       else old(audit)[id := old(audit)[id].(processed := true)]
      ensures id == |old(audit)| - 1 ==>
                audit == old(audit)[..id]
                         + [if fails then old(audit)[id]
                            else if error.Some? then old(audit)[id].(error := error) else old(audit)[id].(processed := true)]
    {
      if !fails {
        if error.Some? {
          audit := audit[id := audit[id].(error := error)];
        } else {
          audit := audit[id := audit[id].(processed := true)];
        }
      }
    }

    method UpdateContact(device: string, now: Instant, fails: bool)
      modifies this`lastContactAt
      ensures Contents() == if fails then old(Contents()) else UpdateLastContact(old(Contents()), device, now)
    {
      if !fails && device in devices {
        lastContactAt := lastContactAt[device := now];
      }
    }

    /** ORDER BY ts DESC LIMIT 1 over the earlier readings of the device. */
    method PreviousEnergyByTS(device: string, ts: Instant) returns (energy: Option<real>)
      ensures energy == PreviousEnergy(telemetry, device, ts)
    {
      var best: Option<Instant> := None;
      var rest := telemetry.Keys;
      while rest != {}
        invariant rest <= telemetry.Keys
        invariant best.Some? ==> best.value < ts && Key(device, best.value) in telemetry
        invariant forall k :: k in telemetry && k !in rest && k.device == device && k.ts < ts ==> best.Some? && k.ts <= best.value
        decreases rest
      {
        var k :| k in rest;
        rest := rest - {k};
        assert k == Key(k.device, k.ts);
        if k.device == device && k.ts < ts && (best.None? || best.value < k.ts) {
          best := Some(k.ts);
        }
      }
      energy := if best.None? then None else Some(telemetry[Key(device, best.value)].reading.energyKWhTotal);
      PredecessorIsUnique(telemetry, device, ts, best);
    }

    /** Steps 4 to 6, shared by both drivers; false in `ok` is a failed insert. */
    method InsertValidated(device: string, siteId: string, p: Payload, ts: Instant, now: Instant, f: Faults) returns (ok: bool, rows: nat)
      modifies this`telemetry
      ensures ok == !f.insert
      ensures rows == if ok && Key(device, ts) !in old(telemetry) then 1 else 0
      ensures telemetry == if f.insert then old(telemetry)
                           else InsertReading(old(telemetry), Key(device, ts),
                             Row(ToReading(p, siteId, ts, now),
                                 !f.previousLookup && DetectEnergyReset(PreviousEnergy(old(telemetry), device, ts), p.energyKWhTotal)))
    {
      var provenance := ClassifyProvenance(ts, now);
      var energyReset := false;
      if !f.previousLookup {
        var previousEnergy := PreviousEnergyByTS(device, ts);
        if DetectEnergyReset(previousEnergy, p.energyKWhTotal) {
          energyReset := true;
        }
      }
      if f.insert {
        return false, 0;
      }
      rows := 0;
      if Key(device, ts) !in telemetry {
        telemetry := telemetry[Key(device, ts) := Row(ToReading(p, siteId, ts, now), energyReset)];
        rows := 1;
      }
      ok := true;
    }

    method AdvanceSeen(device: string, ts: Instant, fails: bool)
      modifies this`lastSeenAt
      ensures lastSeenAt == if fails then old(lastSeenAt) else AdvanceLastSeen(old(lastSeenAt), device, ts)
    {
      if !fails && (device !in lastSeenAt || lastSeenAt[device] < ts) {
        lastSeenAt := lastSeenAt[device := ts];
      }
    }

    /** Steps 3 to 6 of one MQTT message: everything between the contact update and last_seen_at. */
    method ProcessMessage(device: string, raw: RawPayload, now: Instant, f: Faults) returns (verdict: Verdict)
      requires !raw.Cloud?
      modifies this`telemetry
      ensures (telemetry, verdict) == JudgeMessage(old(Contents()), device, raw, now, f)
    {
      if raw.Malformed? || raw.NotJson? {
        return Rejected(Unmarshal);
      }
      if f.deviceLookup || device !in devices {
        return Rejected(UnknownDevice);
      }
      var site := devices[device];
      if site.revoked {
        return Rejected(DeviceRevoked);
      }
      var ts := Validate(raw.payload, PowerCeilingKW(site.systemSizeKW));
      if ts.Err? {
        return Rejected(Invalid(ts.error));
      }
      var ok, rows := InsertValidated(device, site.siteId, raw.payload, ts.value, now, f);
      if !ok {
        return Rejected(DatabaseError);
      }
      verdict := Stored(ts.value, rows == 0);
    }

    /** cmd/ingestor's handleMessage; the audit row is marked once, with the error of whichever branch was left. */
    method HandleMessage(device: string, raw: RawPayload, now: Instant, f: Faults) returns (verdict: Verdict)
      requires !raw.Cloud?
      modifies this
      ensures (Contents(), verdict) == Handled(old(Contents()), device, raw, now, f)
    {
      hide JudgeMessage;
      var auditId := InsertAudit(device, raw, f.audit);
      if auditId.None? {
        return Rejected(DatabaseError);
      }
      assert audit[..auditId.value] == old(audit);
      UpdateContact(device, now, f.contact);
      JudgeReadsTelemetryAndDevices(old(Contents()), Contents(), device, raw, now, f);
      verdict := ProcessMessage(device, raw, now, f);
      if verdict.Stored? {
        AdvanceSeen(device, verdict.ts, f.lastSeen);
      }
      MarkAudit(auditId.value, ErrorOf(verdict), f.markAudit);
    }

    /** One pass of SubmitReadings' loop. */
    method SubmitOne(device: string, site: Device, r: CloudReading, now: Instant, f: Faults) returns (verdict: Verdict)
      modifies this`audit, this`telemetry
      ensures (Contents(), verdict) == BatchStep(old(Contents()), device, site, r, now, f)
    {
      var auditId := InsertAudit(device, Cloud(r), f.audit);
      assert auditId.Some? ==> audit[..auditId.value] == old(audit);
      var payload := CloudPayload(device, r);
      var ts := Validate(payload, PowerCeilingKW(site.systemSizeKW));
      if ts.Err? {
        verdict := Rejected(Invalid(ts.error));
      } else {
        var ok, rows := InsertValidated(device, site.siteId, payload, ts.value, now, f);
        verdict := if ok then Stored(ts.value, rows == 0) else Rejected(DatabaseError);
      }
      if auditId.Some? {
        MarkAudit(auditId.value, ErrorOf(verdict), f.markAudit);
      }
    }

    method SubmitReadings(device: string, tokenValid: bool, readings: seq<CloudReading>, now: Instant, fs: nat -> Faults, last: Faults)
        returns (r: Result<seq<Verdict>, IngestError>)
      modifies this
      ensures (Contents(), r) == Submitted(old(Contents()), device, tokenValid, readings, now, fs, last)
    {
      if !tokenValid {
        return Err(InvalidToken);
      }
      if last.deviceLookup || device !in devices {
        return Err(UnknownDevice);
      }
      var site := devices[device];
      if site.revoked {
        return Err(DeviceRevoked);
      }
      var results: seq<Verdict> := [];
      var maxAcceptedTS: Option<Instant> := None;
      for i := 0 to |readings|
        invariant unchanged(this`devices) && unchanged(this`lastSeenAt) && unchanged(this`lastContactAt)
        invariant (Contents(), results) == Batch(old(Contents()), device, site, readings[..i], now, fs)
        invariant maxAcceptedTS == LatestStored(results)
      {
        var verdict := SubmitOne(device, site, readings[i], now, fs(i));
        assert readings[..i + 1][..i] == readings[..i];
        assert (results + [verdict])[..|results|] == results;
        results := results + [verdict];
        if verdict.Stored? && (maxAcceptedTS.None? || verdict.ts > maxAcceptedTS.value) {
          maxAcceptedTS := Some(verdict.ts);
        }
      }
      assert readings[..|readings|] == readings;
      UpdateContact(device, now, last.contact);
      if maxAcceptedTS.Some? {
        AdvanceSeen(device, maxAcceptedTS.value, last.lastSeen);
      }
      r := Ok(results);
    }
  }

  lemma PredecessorIsUnique(t: Table, device: string, ts: Instant, p: Option<Instant>)
    requires IsPredecessor(t.Keys, device, ts, p)
    ensures p == Predecessor(t, device, ts)
  {
    var q := Predecessor(t, device, ts);
    if p.Some? {
      assert Key(device, p.value) in t && Key(device, p.value).ts < ts;
    }
    if q.Some? {
      assert Key(device, q.value) in t && Key(device, q.value).ts < ts;
    }
  }
}
