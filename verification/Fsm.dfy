/** internal/fsm/fsm.go: the state machine as it stands, with target states updated in place behind a map. */
module Fsm {
  import opened Model
  import opened Sequences
  import M = TargetMachine
  import FlapLog
  import Runs
  import opened FlapTracking

  class TargetState {
    const targetID: string
    var status: Status
    var lastStatus: Option<Status>
    var statusChangedAt: Time
    var lastProbeAt: Option<Time>
    var lastSuccessAt: Option<Time>
    var consecutiveFails: nat
    var consecutiveSuccess: nat
    var avgLatencyMs: real
    var certExpiryDays: int
    var flapCount: int

    constructor (id: string, now: Time)
      ensures Value() == M.Created(id, now)
    {
      targetID, status, lastStatus, statusChangedAt := id, Unknown, None, now;
      lastProbeAt, lastSuccessAt := None, None;
      consecutiveFails, consecutiveSuccess, avgLatencyMs := 0, 0, 0.0;
      certExpiryDays, flapCount := -1, 0;
    }

    function Value(): M.Snapshot
      reads this
    {
      M.Snapshot(targetID, status, lastStatus, statusChangedAt, lastProbeAt, lastSuccessAt,
                 consecutiveFails, consecutiveSuccess, avgLatencyMs, certExpiryDays, flapCount)
    }

    method Observe(r: ProbeResult)
      modifies this
      ensures Value() == M.Observe(old(Value()), r)
    {
      lastProbeAt := Some(r.timestamp);
      if r.success {
        consecutiveFails := 0;
        consecutiveSuccess := consecutiveSuccess + 1;
        lastSuccessAt := Some(r.timestamp);
        if r.latencyMs > 0.0 {
          avgLatencyMs := M.Ewma(avgLatencyMs, r.latencyMs, M.EWMA_ALPHA);
        }
      } else {
        consecutiveSuccess := 0;
        consecutiveFails := consecutiveFails + 1;
      }
      if r.certExpiryDays.Some? {
        certExpiryDays := r.certExpiryDays.value;
      }
    }
  }

  class FSM {
    var states: map<string, TargetState>
    const cfg: M.Config
    const flapper: FlapTracker

    /** Every call made on this machine, and every event it has returned, oldest first. */
    ghost var calls: seq<M.Call>
    ghost var emitted: seq<Event>

    ghost predicate Consistent()
      reads this, states.Values, flapper
    {
      && flapper.Valid() && flapper.window == cfg.flapWindow
      && flapper.history.Keys <= states.Keys
      && forall id | id in states :: states[id].targetID == id
    }

    /** Each target is where the joint run of all calls so far leaves it, and the events are those of that run. */
    ghost predicate Valid()
      reads this, states.Values, flapper
    {
      && Consistent()
      && (forall id :: IsCell(cfg, calls, id, CellOf(id)))
      && IsEventLog(cfg, calls, emitted)
    }

    function CellOf(id: string): Option<M.Cell>
      reads this`states, states.Values, flapper
    {
      if id in states then Some(M.Cell(states[id].Value(), flapper.KeptOf(id))) else None
    }

    constructor (cfg: M.Config)
      ensures Valid() && this.cfg == cfg && calls == [] && emitted == []
      ensures states == map[] && fresh(flapper)
    {
      this.cfg := cfg;
      states, calls, emitted := map[], [], [];
      flapper := new FlapTracker(cfg.flapWindow);
    }

    method GetOrCreate(id: string, now: Time) returns (s: TargetState)
      requires Consistent()
      modifies this`states
      ensures Consistent()
      ensures id in states && s == states[id]
      ensures states == old(states)[id := s]
      ensures if id in old(states) then s == old(states)[id] else fresh(s) && s.Value() == M.Created(id, now)
    {
      if id in states {
        s := states[id];
      } else {
        s := new TargetState(id, now);
        states := states[id := s];
      }
    }

    method Process(r: ProbeResult, target: Target, now: Time) returns (changed: bool, event: Option<Event>)
      requires Valid()
      modifies this, states.Values, flapper
      ensures calls == old(calls) + [M.Probe(r, target, now)]
      ensures emitted == Runs.AppendEvent(old(emitted), event)
      ensures (CellOf(r.targetID), event) == M.Step(cfg, old(CellOf(r.targetID)), M.Probe(r, target, now))
      ensures forall id | id != r.targetID :: CellOf(id) == old(CellOf(id))
      ensures Valid()
      ensures changed <==> event.Some?
      ensures fresh(states.Values - old(states.Values))
    {
      hide IsCell, IsEventLog;
      ghost var call := M.Probe(r, target, now);
      ghost var before := CellOf(r.targetID);
      NoteCall(call);

      var state := GetOrCreate(r.targetID, now);
      state.Observe(r);
      changed, event := Transition(state, r, target);
    }

    /**
     The rest of Process, once the result has been taken into the state. Because maintenance is tested before silence, a
     result in a maintenance window takes a silent target out of SILENT.
     */
    method Transition(state: TargetState, r: ProbeResult, target: Target) returns (changed: bool, event: Option<Event>)
      requires Consistent()
      requires r.targetID in states && state == states[r.targetID]
      modifies state, flapper
      ensures Consistent()
      ensures (M.Cell(state.Value(), flapper.KeptOf(r.targetID)), event) ==
              M.Transition(cfg, old(state.Value()), old(flapper.KeptOf(r.targetID)), r, target)
      ensures changed <==> event.Some?
      ensures forall id | id != r.targetID :: flapper.KeptOf(id) == old(flapper.KeptOf(id))
    {
      hide FlapLog.IsKept, FlapLog.IsTrimmed, M.FlapsAfter, M.Derive, M.StatusChange;
      if InMaintenance(target, r.timestamp) {
        if state.status != Maintenance {
          state.status := Maintenance;
        }
        return false, None;
      }

      if state.status == Silent {
        return false, None;
      }

      var prev := state.status;
      var newStatus := M.Derive(cfg, state.Value(), r, target);
      if newStatus != prev {
        state.flapCount := RecordFlap(r.targetID, r.timestamp);
        if state.flapCount >= cfg.flapThreshold {
          newStatus := Flapping;
        }
      }
      if newStatus == prev {
        return false, None;
      }

      var e := Commit(state, newStatus, r, target);
      return true, Some(e);
    }

    method Commit(state: TargetState, next: Status, r: ProbeResult, target: Target) returns (e: Event)
      modifies state
      ensures state.Value() ==
              old(state.Value()).(lastStatus := Some(old(state.status)), status := next, statusChangedAt := r.timestamp)
      ensures e == M.StatusChange(old(state.Value()), next, r, target)
    {
      var durationMs := TruncDiv(r.timestamp - state.statusChangedAt, NANOS_PER_MILLI);
      e := Event(StatusChanged, r.targetID, r.probeNodeID, state.status, next, r.errorCode, durationMs, target.tags,
                 state.consecutiveFails, state.consecutiveSuccess, r.latencyMs, r.timestamp);
      state.lastStatus := Some(state.status);
      state.status := next;
      state.statusChangedAt := r.timestamp;
    }

    method RecordFlap(id: string, t: Time) returns (count: nat)
      requires Consistent() && id in states
      modifies flapper
      ensures Consistent()
      ensures flapper.KeptOf(id) == M.FlapsAfter(cfg, old(flapper.KeptOf(id)), t)
      ensures count == |flapper.KeptOf(id)|
      ensures forall other | other != id :: flapper.KeptOf(other) == old(flapper.KeptOf(other))
    {
      hide FlapLog.DropBefore, FlapLog.LeadBefore, FlapLog.IsKept, FlapLog.IsTrimmed, FlapLog.Logged,
        FlapLog.Chronological, FlapTracker.KeptOf, CountIn;
      flapper.Record(id, t);
      count := flapper.Count(id, t);
    }

    method SetSilent(id: string, silent: bool, now: Time)
      requires Valid()
      modifies this, states.Values
      ensures calls == old(calls) + [M.SetSilent(id, silent, now)]
      ensures emitted == old(emitted)
      ensures CellOf(id) == M.Step(cfg, old(CellOf(id)), M.SetSilent(id, silent, now)).0
      ensures forall other | other != id :: CellOf(other) == old(CellOf(other))
      ensures Valid()
      ensures fresh(states.Values - old(states.Values))
    {
      hide IsCell, IsEventLog;
      NoteCall(M.SetSilent(id, silent, now));
      var s := GetOrCreate(id, now);
      if silent {
        s.status := Silent;
      } else if s.status == Silent {
        s.status := Unknown;
      }
    }

    method Remove(id: string)
      requires Valid()
      modifies this, flapper
      ensures calls == old(calls) + [M.Remove(id)]
      ensures emitted == old(emitted)
      ensures CellOf(id) == None
      ensures forall other | other != id :: CellOf(other) == old(CellOf(other))
      ensures Valid()
      ensures states == old(states) - {id}
    {
      hide IsCell, IsEventLog;
      NoteCall(M.Remove(id));
      states := states - {id};
      flapper.Remove(id);
    }

    /** The snapshot of one target, or None when it has never been heard of. */
    method GetState(id: string) returns (s: Option<M.Snapshot>)
      requires Valid()
      ensures s == if CellOf(id).Some? then Some(CellOf(id).value.state) else None
    {
      if id !in states {
        return None;
      }
      return Some(states[id].Value());
    }

    /** Adds a call to the ghost record, with the event that the run of all calls prescribes for it. */
    ghost method NoteCall(call: M.Call)
      requires Valid()
      modifies this`calls, this`emitted
      ensures calls == old(calls) + [call]
      ensures emitted == Runs.AppendEvent(old(emitted), M.Step(cfg, old(CellOf(call.TargetID())), call).1)
      ensures IsEventLog(cfg, calls, emitted)
      ensures IsCell(cfg, calls, call.TargetID(), M.Step(cfg, old(CellOf(call.TargetID())), call).0)
      ensures forall id | id != call.TargetID() :: IsCell(cfg, calls, id, old(CellOf(id)))
    {
      hide IsCell, IsEventLog;
      OneMoreCall(cfg, calls, emitted, call, CellOf(call.TargetID()));
      emitted := Runs.AppendEvent(emitted, M.Step(cfg, CellOf(call.TargetID()), call).1);
      calls := calls + [call];
    }
  }

  ghost predicate IsCell(cfg: M.Config, calls: seq<M.Call>, id: string, c: Option<M.Cell>) {
    c == Runs.Lookup(Runs.RunWorld(cfg, calls), id)
  }

  ghost predicate IsEventLog(cfg: M.Config, calls: seq<M.Call>, events: seq<Event>) {
    events == Runs.WorldEvents(cfg, calls)
  }

  /**
   The machine serves each target as if it were the only one: its state, its flap entries and its events are those of
   the calls about it alone.
   */
  lemma TargetFaresAlone(f: FSM, id: string)
    requires f.Valid()
    ensures f.CellOf(id) == Runs.After(f.cfg, Runs.Project(f.calls, id))
    ensures Runs.EventsFor(f.emitted, id) == Runs.Events(f.cfg, Runs.Project(f.calls, id))
    ensures f.flapper.history.Keys <= f.states.Keys
  {
    hide Runs.RunWorld, Runs.WorldEvents, Runs.After, Runs.Events;
    assert IsCell(f.cfg, f.calls, id, f.CellOf(id));
    Runs.MultiTargetProjection(f.cfg, f.calls, id);
  }

  lemma OneMoreCall(cfg: M.Config, calls: seq<M.Call>, events: seq<Event>, call: M.Call, before: Option<M.Cell>)
    requires IsCell(cfg, calls, call.TargetID(), before) && IsEventLog(cfg, calls, events)
    ensures IsCell(cfg, calls + [call], call.TargetID(), M.Step(cfg, before, call).0)
    ensures IsEventLog(cfg, calls + [call], Runs.AppendEvent(events, M.Step(cfg, before, call).1))
    ensures forall id, c | id != call.TargetID() && IsCell(cfg, calls, id, c) :: IsCell(cfg, calls + [call], id, c)
  {
    hide M.Step;
    Snoc(calls, call);
  }
}
