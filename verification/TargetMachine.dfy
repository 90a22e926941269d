/** internal/fsm/fsm.go, for one target: what a call does to the target's state and flap window, as a function. */
module TargetMachine {
  import opened Model
  import opened Sequences
  import FlapLog

  datatype Config = Config(
    downThreshold: int,
    recoveryThreshold: int,
    flapWindow: int,
    flapThreshold: int,
    degradedLatencyMs: int,
    degradedLossPct: real)

  /** The value of a TargetState at one moment. An instant or status that Go leaves at its zero value is None. */
  datatype Snapshot = Snapshot(
    targetID: string,
    status: Status,
    lastStatus: Option<Status>,
    statusChangedAt: Time,
    lastProbeAt: Option<Time>,
    lastSuccessAt: Option<Time>,
    consecutiveFails: nat,
    consecutiveSuccess: nat,
    avgLatencyMs: real,
    certExpiryDays: int,
    flapCount: int)

  /** A target's state together with its entries in the flap tracker. */
  datatype Cell = Cell(state: Snapshot, flaps: seq<Time>)

  datatype Call =
    | Probe(result: ProbeResult, target: Target, now: Time)
    | SetSilent(targetID: string, silent: bool, now: Time)
    | Remove(targetID: string)
  {
    function TargetID(): string {
      if Probe? then result.targetID else targetID
    }
  }

  const EWMA_ALPHA: real := 0.1

  function Created(id: string, now: Time): Snapshot {
    Snapshot(id, Unknown, None, now, None, None, 0, 0, 0.0, -1, 0)
  }

  function GetOrCreate(c: Option<Cell>, id: string, now: Time): Cell {
    if c.Some? then c.value else Cell(Created(id, now), [])
  }

  function Ewma(prev: real, next: real, alpha: real): real {
    if prev == 0.0 then next else alpha * next + (1.0 - alpha) * prev
  }

  function DownThreshold(cfg: Config, target: Target): int {
    if target.alertConfig.downThreshold > 0 then target.alertConfig.downThreshold else cfg.downThreshold
  }

  function RecoveryThreshold(cfg: Config, target: Target): int {
    if target.alertConfig.recoveryThreshold > 0 then target.alertConfig.recoveryThreshold else cfg.recoveryThreshold
  }

  predicate IsDegraded(cfg: Config, r: ProbeResult, target: Target) {
    var latency :=
      if target.alertConfig.latencyWarnMs > 0 then target.alertConfig.latencyWarnMs else cfg.degradedLatencyMs;
    var loss :=
      if target.alertConfig.packetLossWarnPct > 0.0 then target.alertConfig.packetLossWarnPct else cfg.degradedLossPct;
    && r.success
    && (|| (latency > 0 && TruncReal(r.latencyMs) > latency)
        || (r.packetLossPct.Some? && loss > 0.0 && r.packetLossPct.value > loss))
  }

  /** Latency counts in whole milliseconds: a fraction above the threshold does not make a target degraded yet. */
  lemma DegradedExactly(cfg: Config, r: ProbeResult, target: Target)
    ensures var own := target.alertConfig;
            var latency := if own.latencyWarnMs > 0 then own.latencyWarnMs else cfg.degradedLatencyMs;
            var loss := if own.packetLossWarnPct > 0.0 then own.packetLossWarnPct else cfg.degradedLossPct;
            IsDegraded(cfg, r, target) <==>
              && r.success
              && (|| (latency > 0 && r.latencyMs >= (latency + 1) as real)
                  || (r.packetLossPct.Some? && 0.0 < loss < r.packetLossPct.value))
  {
    var latency :=
      if target.alertConfig.latencyWarnMs > 0 then target.alertConfig.latencyWarnMs else cfg.degradedLatencyMs;
    if latency > 0 {
      TruncExceeds(r.latencyMs, latency);
    }
  }

  lemma TruncExceeds(x: real, n: nat)
    ensures TruncReal(x) > n <==> x >= (n + 1) as real
  {
    var t := TruncReal(x);
    if t > n {
      assert t as real >= (n + 1) as real;
    }
    if x >= (n + 1) as real {
      assert t as real > n as real;
    }
  }

  function Derive(cfg: Config, s: Snapshot, r: ProbeResult, target: Target): Status {
    match s.status
    case Unknown => if r.success then Up else Unknown
    case Up | Degraded =>
      if s.consecutiveFails >= DownThreshold(cfg, target) then Down
      else if IsDegraded(cfg, r, target) then Degraded
      else Up
    case Down | Flapping => if s.consecutiveSuccess >= RecoveryThreshold(cfg, target) then Up else Down
    case Maintenance => Maintenance
    case Silent => Silent
  }

  /** What every result does to a state, whatever its status: instants, run lengths, latency average, certificate. */
  function Observe(s: Snapshot, r: ProbeResult): Snapshot {
    var seen := s.(
      lastProbeAt := Some(r.timestamp),
      certExpiryDays := if r.certExpiryDays.Some? then r.certExpiryDays.value else s.certExpiryDays);
    if r.success then
      seen.(
        consecutiveFails := 0,
        consecutiveSuccess := s.consecutiveSuccess + 1,
        lastSuccessAt := Some(r.timestamp),
        avgLatencyMs := if r.latencyMs > 0.0 then Ewma(s.avgLatencyMs, r.latencyMs, EWMA_ALPHA) else s.avgLatencyMs)
    else
      seen.(consecutiveSuccess := 0, consecutiveFails := s.consecutiveFails + 1)
  }

  /** Whether a result, once observed, is recorded as a status change in the flap tracker. */
  predicate RecordsFlap(cfg: Config, s: Snapshot, r: ProbeResult, target: Target) {
    !InMaintenance(target, r.timestamp) && s.status != Silent && Derive(cfg, s, r, target) != s.status
  }

  function FlapsAfter(cfg: Config, flaps: seq<Time>, at: Time): seq<Time> {
    FlapLog.DropBefore(FlapLog.DropBefore(flaps, at - cfg.flapWindow) + [at], at - cfg.flapWindow)
  }

  function StatusChange(s: Snapshot, next: Status, r: ProbeResult, target: Target): Event {
    Event(StatusChanged, r.targetID, r.probeNodeID, s.status, next, r.errorCode,
          TruncDiv(r.timestamp - s.statusChangedAt, NANOS_PER_MILLI), target.tags,
          s.consecutiveFails, s.consecutiveSuccess, r.latencyMs, r.timestamp)
  }

  /** The rest of processing a result, for a state that has already taken it in. */
  function Transition(cfg: Config, s: Snapshot, flaps: seq<Time>, r: ProbeResult, target: Target)
    : (Cell, Option<Event>)
  {
    if InMaintenance(target, r.timestamp) then (Cell(s.(status := Maintenance), flaps), None)
    else if !RecordsFlap(cfg, s, r, target) then (Cell(s, flaps), None)
    else Change(cfg, s, FlapsAfter(cfg, flaps, r.timestamp), r, target)
  }

  /** A recorded status change, with the flap entries that include it: the flap threshold overrides the new status. */
  function Change(cfg: Config, s: Snapshot, flaps: seq<Time>, r: ProbeResult, target: Target): (Cell, Option<Event>) {
    var counted := s.(flapCount := |flaps|);
    var next := if |flaps| >= cfg.flapThreshold then Flapping else Derive(cfg, s, r, target);
    if next == s.status then (Cell(counted, flaps), None)
    else
      (Cell(counted.(lastStatus := Some(s.status), status := next, statusChangedAt := r.timestamp), flaps),
       Some(StatusChange(counted, next, r, target)))
  }

  function Process(cfg: Config, c: Cell, r: ProbeResult, target: Target): (Cell, Option<Event>) {
    Transition(cfg, Observe(c.state, r), c.flaps, r, target)
  }

  function Silence(c: Cell, silent: bool): Cell {
    c.(state := c.state.(status :=
      if silent then Silent else if c.state.status == Silent then Unknown else c.state.status))
  }

  function Step(cfg: Config, c: Option<Cell>, call: Call): (Option<Cell>, Option<Event>) {
    match call
    case Probe(r, target, now) =>
      var (cell, event) := Process(cfg, GetOrCreate(c, r.targetID, now), r, target);
      (Some(cell), event)
    case SetSilent(id, silent, now) => (Some(Silence(GetOrCreate(c, id, now), silent)), None)
    case Remove(_) => (None, None)
  }
}
