/** The domain types of internal/model/model.go that the verified components read or write. */
module Model {

  /** Instants and durations, in nanoseconds. */
  type Time = int

  const NANOS_PER_MILLI: int := 1_000_000
  const NANOS_PER_SECOND: int := 1_000_000_000

  datatype Option<+T> = None | Some(value: T)

  datatype Status = Unknown | Up | Down | Degraded | Flapping | Maintenance | Silent

  datatype EventType = StatusChanged | DegradedEvent | FlappingEvent | CertExpiry | MaintenanceEvent

  datatype AlertStatus = Firing | Resolved | Acknowledged | Silenced

  datatype Severity = Unset | Critical | Error | Warn | Info

  datatype AlertConfig = AlertConfig(
    downThreshold: int,
    recoveryThreshold: int,
    latencyWarnMs: int,
    packetLossWarnPct: real)

  datatype MaintenanceWindow = MaintenanceWindow(start: Time, end: Time)

  datatype Target = Target(
    id: string,
    tags: seq<string>,
    intervalSec: int,
    alertConfig: AlertConfig,
    maintenance: Option<MaintenanceWindow>)

  /** The two `Detail` entries that the state machine looks at are options: absent, or of the expected type. */
  datatype ProbeResult = ProbeResult(
    targetID: string,
    probeNodeID: string,
    timestamp: Time,
    success: bool,
    latencyMs: real,
    errorCode: string,
    packetLossPct: Option<real>,
    certExpiryDays: Option<int>)

  datatype Event = Event(
    eventType: EventType,
    targetID: string,
    probeNodeID: string,
    fromStatus: Status,
    toStatus: Status,
    reason: string,
    durationMs: int,
    tags: seq<string>,
    consecutiveFails: nat,
    consecutiveSuccess: nat,
    latencyMs: real,
    timestamp: Time)

  /** A missing window is never active; both ends of a window are excluded. */
  predicate InMaintenance(target: Target, at: Time) {
    target.maintenance.Some? && target.maintenance.value.start < at < target.maintenance.value.end
  }

  /** Go's integer division, which truncates toward zero. */
  function TruncDiv(x: int, y: int): (q: int)
    requires y > 0
    ensures -y < x - q * y < y
    ensures x >= 0 ==> q >= 0 && q * y <= x
    ensures x <= 0 ==> q <= 0 && x <= q * y
  {
    if x >= 0 then x / y else -((-x) / y)
  }

  /** Go's conversion of a floating-point number to an integer, which truncates toward zero. */
  function TruncReal(x: real): (n: int)
    ensures -1.0 < x - n as real < 1.0
    ensures x >= 0.0 ==> 0.0 <= n as real <= x
    ensures x <= 0.0 ==> x <= n as real <= 0.0
  {
    if x >= 0.0 then x.Floor else -((-x).Floor)
  }
}
