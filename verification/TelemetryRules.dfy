/** The shared rules of the ingestion paths (internal/domain/telemetry.go). */
module TelemetryRules {
  import opened Options

  /** Nanoseconds since 1970-01-01 UTC. */
  type Instant = int

  /** Measurements that are stored as sent: no rule looks at them. */
  datatype Extras = Extras(
    voltageV: Option<real>,
    rssi: Option<int>,
    batteryVoltageV: Option<real>,
    pvVoltageV: Option<real>,
    outputVoltageV: Option<real>,
    gridPowerKW: Option<real>)

  /** A decoded message; `timestamp` is None when the text is not RFC 3339. */
  datatype Payload = Payload(
    deviceId: string,
    timestamp: Option<Instant>,
    powerKW: real,
    energyKWhTotal: real,
    status: string,
    pvPowerKW: Option<real>,
    batterySOCPct: Option<real>,
    loadPowerKW: Option<real>,
    extras: Extras)

  datatype ValidationError =
    | MissingDeviceId
    | InvalidTimestamp
    | NegativeEnergy
    | NegativePower
    | PowerAboveCeiling
    | NegativePVPower
    | PVPowerAboveCeiling
    | SOCOutOfRange
    | NegativeLoadPower
    | UnknownStatus

  datatype Provenance = Metered | Backfilled

  const BACKFILL_THRESHOLD: Instant := 15 * 60 * 1_000_000_000
  const POWER_CEILING_HEADROOM: real := 1.5
  const DEFAULT_MAX_PLAUSIBLE_KW: real := 100.0

  function Validate(p: Payload, maxPlausibleKW: real): Result<Instant, ValidationError> {
    if p.deviceId == "" then Err(MissingDeviceId)
    else if p.timestamp.None? then Err(InvalidTimestamp)
    else if p.energyKWhTotal < 0.0 then Err(NegativeEnergy)
    else if p.powerKW < 0.0 then Err(NegativePower)
    else if p.powerKW > maxPlausibleKW then Err(PowerAboveCeiling)
    else if p.pvPowerKW.Some? && p.pvPowerKW.value < 0.0 then Err(NegativePVPower)
    else if p.pvPowerKW.Some? && p.pvPowerKW.value > maxPlausibleKW then Err(PVPowerAboveCeiling)
    else if p.batterySOCPct.Some? && (p.batterySOCPct.value < 0.0 || p.batterySOCPct.value > 100.0) then Err(SOCOutOfRange)
    else if p.loadPowerKW.Some? && p.loadPowerKW.value < 0.0 then Err(NegativeLoadPower)
    else if p.status !in ["ok", "fault", "offline", ""] then Err(UnknownStatus)
    else Ok(p.timestamp.value)
  }

  function ClassifyProvenance(ts: Instant, receivedAt: Instant): Provenance {
    if receivedAt - ts > BACKFILL_THRESHOLD then Backfilled else Metered
  }

  function PowerCeilingKW(systemSizeKW: Option<real>): real {
    if systemSizeKW.None? || systemSizeKW.value <= 0.0 then DEFAULT_MAX_PLAUSIBLE_KW
    else systemSizeKW.value * POWER_CEILING_HEADROOM
  }

  /** A counter below the chronologically preceding reading; the first reading of a device is never a reset. */
  predicate DetectEnergyReset(previous: Option<real>, current: real) {
    previous.Some? && current < previous.value
  }

  function CoalesceStatus(s: string): string {
    if s == "" then "ok" else s
  }
}
