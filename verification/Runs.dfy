/**
 Whole runs of internal/fsm/fsm.go: the state, events and flap log after any sequence of calls,
 first for one target alone and then for the state machine that keeps many targets in one map.
 */
module Runs {
  import opened Model
  import opened Sequences
  import opened TargetMachine
  import FlapLog

  // ---- one target -------------------------------------------------------------------------------

  function After(cfg: Config, calls: seq<Call>): Option<Cell> {
    if calls == [] then None else Step(cfg, After(cfg, Front(calls)), Last(calls)).0
  }

  /** The event, if any, that the last call of a run emits. */
  function LastEvent(cfg: Config, calls: seq<Call>): Option<Event>
    requires calls != []
  {
    Step(cfg, After(cfg, Front(calls)), Last(calls)).1
  }

  function AppendEvent(events: seq<Event>, e: Option<Event>): seq<Event> {
    if e.Some? then events + [e.value] else events
  }

  function Events(cfg: Config, calls: seq<Call>): seq<Event> {
    if calls == [] then [] else AppendEvent(Events(cfg, Front(calls)), LastEvent(cfg, calls))
  }

  /** The state that the last call of a run finds, and the same state once it has taken in the call's result. */
  function Found(cfg: Config, calls: seq<Call>): Snapshot
    requires calls != [] && Last(calls).Probe?
  {
    GetOrCreate(After(cfg, Front(calls)), Last(calls).result.targetID, Last(calls).now).state
  }

  function Observed(cfg: Config, calls: seq<Call>): Snapshot
    requires calls != [] && Last(calls).Probe?
  {
    Observe(Found(cfg, calls), Last(calls).result)
  }

  predicate LastRecordsFlap(cfg: Config, calls: seq<Call>)
    requires calls != []
  {
    Last(calls).Probe? && RecordsFlap(cfg, Observed(cfg, calls), Last(calls).result, Last(calls).target)
  }

  /** What the run has asked of the flap tracker since the target was last removed. */
  function FlapOps(cfg: Config, calls: seq<Call>): seq<FlapLog.Op> {
    if calls == [] || Last(calls).Remove? then []
    else if LastRecordsFlap(cfg, calls) then
      var t := Last(calls).result.timestamp;
      FlapOps(cfg, Front(calls)) + [FlapLog.Record(t), FlapLog.Count(t)]
    else FlapOps(cfg, Front(calls))
  }

  /** Every status change recorded for the target since it was last removed. */
  function Recorded(cfg: Config, calls: seq<Call>): seq<Time> {
    FlapLog.Logged(FlapOps(cfg, calls))
  }

  ghost predicate Chronological(calls: seq<Call>) {
    forall i, j | 0 <= i <= j < |calls| && calls[i].Probe? && calls[j].Probe? ::
      calls[i].result.timestamp <= calls[j].result.timestamp
  }

  ghost predicate NoRemove(calls: seq<Call>) {
    forall i | 0 <= i < |calls| :: !calls[i].Remove?
  }

  /** No maintenance at that time: there is no window, or the time is not after its start or not before its end. */
  predicate OutsideWindow(target: Target, at: Time) {
    target.maintenance.Some? ==> at <= target.maintenance.value.start || target.maintenance.value.end <= at
  }

  ghost predicate ProbesOutsideMaintenance(calls: seq<Call>) {
    forall i | 0 <= i < |calls| :: calls[i].Probe? && OutsideWindow(calls[i].target, calls[i].result.timestamp)
  }

  ghost predicate AllBefore(calls: seq<Call>, t: Time) {
    forall i | 0 <= i < |calls| && calls[i].Probe? :: calls[i].result.timestamp <= t
  }

  function FlapsOf(c: Option<Cell>): seq<Time> {
    if c.Some? then c.value.flaps else []
  }

  lemma FlapsAfterLast(cfg: Config, calls: seq<Call>)
    requires calls != [] && !Last(calls).Remove?
    ensures FlapsOf(After(cfg, calls)) ==
            if LastRecordsFlap(cfg, calls)
            then FlapsAfter(cfg, FlapsOf(After(cfg, Front(calls))), Last(calls).result.timestamp)
            else FlapsOf(After(cfg, Front(calls)))
  {
  }

  /** The tracker's entries for the target are what the sliding window keeps of the operations in the run. */
  lemma {:induction false} FlapsAreKept(cfg: Config, calls: seq<Call>)
    ensures FlapLog.IsKept(cfg.flapWindow, FlapOps(cfg, calls), FlapsOf(After(cfg, calls)))
  {
    hide FlapLog.IsKept, FlapLog.DropBefore;
    FlapLog.NothingKept(cfg.flapWindow);
    if calls != [] && !Last(calls).Remove? {
      FlapsAreKept(cfg, Front(calls));
      FlapsAfterLast(cfg, calls);
      if LastRecordsFlap(cfg, calls) {
        var t := Last(calls).result.timestamp;
        RecordThenCount(cfg, FlapOps(cfg, Front(calls)), FlapsOf(After(cfg, Front(calls))), t);
      }
    }
  }

  lemma RecordThenCount(cfg: Config, ops: seq<FlapLog.Op>, kept: seq<Time>, t: Time)
    requires FlapLog.IsKept(cfg.flapWindow, ops, kept)
    ensures FlapLog.IsKept(cfg.flapWindow, ops + [FlapLog.Record(t), FlapLog.Count(t)], FlapsAfter(cfg, kept, t))
  {
    hide FlapLog.IsKept, FlapLog.DropBefore;
    var once := ops + [FlapLog.Record(t)];
    assert ops + [FlapLog.Record(t), FlapLog.Count(t)] == once + [FlapLog.Count(t)];
    FlapLog.OneMoreKept(cfg.flapWindow, ops, kept, FlapLog.Record(t));
    FlapLog.OneMoreKept(cfg.flapWindow, once, FlapLog.DropBefore(kept, t - cfg.flapWindow) + [t], FlapLog.Count(t));
  }

  /** The target's status; a target that has not been heard of is as good as UNKNOWN. */
  function StatusOf(cfg: Config, calls: seq<Call>): Status {
    if After(cfg, calls).Some? then After(cfg, calls).value.state.status else Unknown
  }

  function LastProbeAt(cfg: Config, calls: seq<Call>): Option<Time> {
    if After(cfg, calls).Some? then After(cfg, calls).value.state.lastProbeAt else None
  }

  /** The status that a recorded change leads to: the derived one, unless the flap count overrides it. */
  function NextStatus(cfg: Config, calls: seq<Call>): Status
    requires calls != [] && Last(calls).Probe?
  {
    if |FlapsOf(After(cfg, calls))| >= cfg.flapThreshold then Flapping
    else Derive(cfg, Observed(cfg, calls), Last(calls).result, Last(calls).target)
  }

  /** What the last call of a run does to the status, and which event it emits. */
  lemma LastCall(cfg: Config, calls: seq<Call>)
    requires calls != []
    ensures var before, after, call := StatusOf(cfg, Front(calls)), StatusOf(cfg, calls), Last(calls);
            match call
            case Probe(r, target, _) =>
              && LastProbeAt(cfg, calls) == Some(r.timestamp)
              && Found(cfg, calls).status == before
              && if !LastRecordsFlap(cfg, calls) then
                && LastEvent(cfg, calls).None?
                && after == if InMaintenance(target, r.timestamp) then Maintenance else before
              else
                && after == NextStatus(cfg, calls)
                && LastEvent(cfg, calls) ==
                   if after == before then None else Some(StatusChange(Observed(cfg, calls), after, r, target))
            case SetSilent(_, silent, _) =>
              && LastEvent(cfg, calls).None? && LastProbeAt(cfg, calls) == LastProbeAt(cfg, Front(calls))
              && after == if silent then Silent else if before == Silent then Unknown else before
            case Remove(_) => LastEvent(cfg, calls).None? && LastProbeAt(cfg, calls).None? && after == Unknown
  {
    hide FlapsAfter;
  }

  lemma ChronologicalFront(calls: seq<Call>)
    requires calls != [] && Chronological(calls)
    ensures Chronological(Front(calls))
    ensures Last(calls).Probe? ==> AllBefore(calls, Last(calls).result.timestamp)
    ensures Last(calls).Probe? ==> AllBefore(Front(calls), Last(calls).result.timestamp)
  {
    forall i | 0 <= i < |calls| - 1 ensures Front(calls)[i] == calls[i] {
    }
  }

  lemma {:induction false} FlapOpsInOrder(cfg: Config, calls: seq<Call>, t: Time)
    requires Chronological(calls) && AllBefore(calls, t)
    ensures FlapLog.Chronological(FlapOps(cfg, calls))
    ensures forall i | 0 <= i < |FlapOps(cfg, calls)| :: FlapOps(cfg, calls)[i].at <= t
  {
    if calls != [] {
      ChronologicalFront(calls);
      var u := if Last(calls).Probe? then Last(calls).result.timestamp else t;
      assert forall i | 0 <= i < |calls| - 1 :: Front(calls)[i] == calls[i];
      assert calls[|calls| - 1] == Last(calls);
      FlapOpsInOrder(cfg, Front(calls), u);
    }
  }

  /** While time does not run backwards, the flap count after a recorded change is exact over the whole run. */
  lemma FlapCountIsExact(cfg: Config, calls: seq<Call>)
    requires calls != [] && Last(calls).Probe? && Chronological(calls) && LastRecordsFlap(cfg, calls)
    ensures var t := Last(calls).result.timestamp;
            && Recorded(cfg, calls) == Recorded(cfg, Front(calls)) + [t]
            && |FlapsOf(After(cfg, calls))| == CountFrom(Recorded(cfg, calls), t - cfg.flapWindow)
  {
    hide FlapLog.IsKept, FlapLog.Logged, FlapsAfter, CountFrom, After, LastRecordsFlap;
    var t, ops := Last(calls).result.timestamp, FlapOps(cfg, Front(calls));
    ChronologicalFront(calls);
    FlapOpsInOrder(cfg, Front(calls), t);
    FlapsAreKept(cfg, Front(calls));
    FlapsAfterLast(cfg, calls);
    RecordedCount(cfg, ops, FlapsOf(After(cfg, Front(calls))), t);
  }

  lemma {:induction false} RecordedCount(cfg: Config, ops: seq<FlapLog.Op>, kept: seq<Time>, t: Time)
    requires FlapLog.Chronological(ops) && forall i | 0 <= i < |ops| :: ops[i].at <= t
    requires FlapLog.IsKept(cfg.flapWindow, ops, kept)
    ensures var both := ops + [FlapLog.Record(t), FlapLog.Count(t)];
            && FlapLog.Logged(both) == FlapLog.Logged(ops) + [t]
            && |FlapsAfter(cfg, kept, t)| == CountFrom(FlapLog.Logged(both), t - cfg.flapWindow)
  {
    hide FlapLog.IsKept, FlapLog.DropBefore, FlapLog.Logged, FlapLog.Chronological, CountFrom, CountIn;
    var once := ops + [FlapLog.Record(t)];
    FlapLog.OneMoreInOrder(ops, FlapLog.Record(t));
    assert ops + [FlapLog.Record(t), FlapLog.Count(t)] == once + [FlapLog.Count(t)];
    FlapLog.OneMoreLogged(ops, FlapLog.Record(t));
    FlapLog.OneMoreLogged(once, FlapLog.Count(t));
    FlapLog.OneMoreKept(cfg.flapWindow, ops, kept, FlapLog.Record(t));
    FlapLog.CountIsExact(cfg.flapWindow, once, FlapLog.DropBefore(kept, t - cfg.flapWindow) + [t], t);
  }

  // ---- many targets -----------------------------------------------------------------------------

  type World = map<string, Cell>

  function Lookup(w: World, id: string): Option<Cell> {
    if id in w then Some(w[id]) else None
  }

  function RunWorld(cfg: Config, calls: seq<Call>): World {
    if calls == [] then map[]
    else
      var w, id := RunWorld(cfg, Front(calls)), Last(calls).TargetID();
      var c := Step(cfg, Lookup(w, id), Last(calls)).0;
      if c.Some? then w[id := c.value] else w - {id}
  }

  function WorldEvents(cfg: Config, calls: seq<Call>): seq<Event> {
    if calls == [] then []
    else
      var w := RunWorld(cfg, Front(calls));
      AppendEvent(WorldEvents(cfg, Front(calls)), Step(cfg, Lookup(w, Last(calls).TargetID()), Last(calls)).1)
  }

  function Project(calls: seq<Call>, id: string): seq<Call> {
    if calls == [] then []
    else if Last(calls).TargetID() == id then Project(Front(calls), id) + [Last(calls)]
    else Project(Front(calls), id)
  }

  function EventsFor(events: seq<Event>, id: string): seq<Event> {
    if events == [] then []
    else if Last(events).targetID == id then EventsFor(Front(events), id) + [Last(events)]
    else EventsFor(Front(events), id)
  }

  lemma EventIsOfCall(cfg: Config, c: Option<Cell>, call: Call)
    ensures Step(cfg, c, call).1.Some? ==> Step(cfg, c, call).1.value.targetID == call.TargetID()
    ensures call.Remove? <==> Step(cfg, c, call).0.None?
  {
    hide FlapsAfter, Derive, Observe;
  }

  /** In any interleaving, each target fares exactly as if the calls about it had been the only ones. */
  lemma {:induction false} MultiTargetProjection(cfg: Config, calls: seq<Call>, id: string)
    ensures Lookup(RunWorld(cfg, calls), id) == After(cfg, Project(calls, id))
    ensures EventsFor(WorldEvents(cfg, calls), id) == Events(cfg, Project(calls, id))
  {
    if calls != [] {
      hide Step;
      var call := Last(calls);
      MultiTargetProjection(cfg, Front(calls), id);
      EventIsOfCall(cfg, Lookup(RunWorld(cfg, Front(calls)), call.TargetID()), call);
      var e := Step(cfg, Lookup(RunWorld(cfg, Front(calls)), call.TargetID()), call).1;
      if e.Some? {
        Snoc(WorldEvents(cfg, Front(calls)), e.value);
      }
      if call.TargetID() == id {
        Snoc(Project(Front(calls), id), call);
      }
    }
  }
}
