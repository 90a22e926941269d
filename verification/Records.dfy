/** What a target's state and its events record, told from the calls alone. */
module Records {
  import opened Model
  import opened Sequences
  import opened TargetMachine
  import opened Runs
  import opened Hysteresis

  /** The latest probe since the target was last removed, and the latest that succeeded. */
  function LatestProbe(calls: seq<Call>): Option<ProbeResult> {
    if calls == [] || Last(calls).Remove? then None
    else if Last(calls).Probe? then Some(Last(calls).result)
    else LatestProbe(Front(calls))
  }

  function LatestSuccess(calls: seq<Call>): Option<ProbeResult> {
    if calls == [] || Last(calls).Remove? then None
    else if Last(calls).Probe? && Last(calls).result.success then Some(Last(calls).result)
    else LatestSuccess(Front(calls))
  }

  /** The certificate days that a result has told last, and -1 as long as none has. */
  function LatestCertDays(calls: seq<Call>): int {
    if calls == [] || Last(calls).Remove? then -1
    else if Last(calls).Probe? && Last(calls).result.certExpiryDays.Some? then Last(calls).result.certExpiryDays.value
    else LatestCertDays(Front(calls))
  }

  /** The latest event since the target was last removed. */
  function LatestEvent(cfg: Config, calls: seq<Call>): Option<Event> {
    if calls == [] || Last(calls).Remove? then None
    else if LastEvent(cfg, calls).Some? then LastEvent(cfg, calls)
    else LatestEvent(cfg, Front(calls))
  }

  /** When the target was first heard of since it was last removed, by the clock of the call. */
  function HeardOfAt(calls: seq<Call>): Option<Time> {
    if calls == [] || Last(calls).Remove? then None
    else if HeardOfAt(Front(calls)).Some? then HeardOfAt(Front(calls))
    else Some(Last(calls).now)
  }

  /** The time of the latest event, or else of the target's creation. */
  function ChangedAt(cfg: Config, calls: seq<Call>): Option<Time> {
    if LatestEvent(cfg, calls).Some? then Some(LatestEvent(cfg, calls).value.timestamp) else HeardOfAt(calls)
  }

  /** The number of recorded changes in the window that ended with the latest of them. */
  function LatestFlapCount(cfg: Config, calls: seq<Call>): nat {
    if calls == [] || Last(calls).Remove? then 0
    else if LastRecordsFlap(cfg, calls) then |FlapsOf(After(cfg, calls))|
    else LatestFlapCount(cfg, Front(calls))
  }

  function TimeOf(r: Option<ProbeResult>): Option<Time> {
    if r.Some? then Some(r.value.timestamp) else None
  }

  /** In every reachable state, each field is the latest of what it records, whatever came in between. */
  lemma {:induction false} StateRecordsRun(cfg: Config, calls: seq<Call>)
    ensures After(cfg, calls).Some? <==> HeardOfAt(calls).Some?
    ensures After(cfg, calls).None? ==> LatestEvent(cfg, calls).None?
    ensures After(cfg, calls).Some? ==>
              var s := After(cfg, calls).value.state;
              && s.lastProbeAt == TimeOf(LatestProbe(calls))
              && s.lastSuccessAt == TimeOf(LatestSuccess(calls))
              && s.certExpiryDays == LatestCertDays(calls)
              && Some(s.statusChangedAt) == ChangedAt(cfg, calls)
              && s.lastStatus ==
                 (if LatestEvent(cfg, calls).Some? then Some(LatestEvent(cfg, calls).value.fromStatus) else None)
              && s.flapCount == LatestFlapCount(cfg, calls)
  {
    if calls != [] {
      hide After, LastEvent, LastRecordsFlap;
      StateRecordsRun(cfg, Front(calls));
      CountersAfterLast(cfg, calls);
      LastCall(cfg, calls);
      if !Last(calls).Remove? {
        LastCallRecords(cfg, calls);
      }
    }
  }

  /** What the last call leaves in the fields, given the state before it, new or not. */
  lemma {:induction false} LastCallRecords(cfg: Config, calls: seq<Call>)
    requires calls != [] && !Last(calls).Remove?
    ensures After(cfg, calls).Some?
    ensures var s, call, e := After(cfg, calls).value.state, Last(calls), LastEvent(cfg, calls);
            var b := GetOrCreate(After(cfg, Front(calls)), call.TargetID(), call.now).state;
            && s.lastProbeAt == (if call.Probe? then Some(call.result.timestamp) else b.lastProbeAt)
            && s.lastSuccessAt ==
               (if call.Probe? && call.result.success then Some(call.result.timestamp) else b.lastSuccessAt)
            && s.certExpiryDays ==
               (if call.Probe? && call.result.certExpiryDays.Some?
                then call.result.certExpiryDays.value else b.certExpiryDays)
            && s.statusChangedAt == (if e.Some? then e.value.timestamp else b.statusChangedAt)
            && s.lastStatus == (if e.Some? then Some(e.value.fromStatus) else b.lastStatus)
            && s.flapCount == (if LastRecordsFlap(cfg, calls) then |FlapsOf(After(cfg, calls))| else b.flapCount)
  {
    hide FlapsAfter, Derive, Ewma, TruncDiv;
  }

  /**
   An event tells the probe it came from, the two statuses, the run lengths that led to it, and how long the earlier
   status had lasted: since the latest event before, or since the target's creation.
   */
  lemma {:induction false} EventTellsItsProbe(cfg: Config, calls: seq<Call>)
    requires calls != [] && LastEvent(cfg, calls).Some?
    ensures Last(calls).Probe?
    ensures var e, r := LastEvent(cfg, calls).value, Last(calls).result;
            && e.eventType == StatusChanged
            && e.targetID == r.targetID && e.probeNodeID == r.probeNodeID && e.timestamp == r.timestamp
            && e.reason == r.errorCode && e.latencyMs == r.latencyMs && e.tags == Last(calls).target.tags
            && e.fromStatus == StatusOf(cfg, Front(calls)) && e.toStatus == StatusOf(cfg, calls)
            && e.consecutiveFails == Trailing(Outcomes(calls), false)
            && e.consecutiveSuccess == Trailing(Outcomes(calls), true)
    ensures var e, since := LastEvent(cfg, calls).value, ChangedAt(cfg, Front(calls));
            var lasted := e.timestamp - if since.Some? then since.value else Last(calls).now;
            && -1_000_000 < lasted - e.durationMs * 1_000_000 < 1_000_000
            && (lasted >= 0 ==> 0 <= e.durationMs * 1_000_000 <= lasted)
            && (lasted <= 0 ==> lasted <= e.durationMs * 1_000_000 <= 0)
  {
    StateRecordsRun(cfg, Front(calls));
    CountersAreTrailingRuns(cfg, calls);
    CountersAfterLast(cfg, calls);
    LastCall(cfg, calls);
    hide FlapsAfter, Derive, Ewma, TruncDiv;
  }
}
