/** What the events of a run say: which transitions occur, how the log replays, and what the durations add up to. */
module EventLog {
  import opened Model
  import opened Sequences
  import opened TargetMachine
  import opened Runs
  import opened Hysteresis

  // ---- the transition graph ---------------------------------------------------------------------

  predicate Edge(from: Status, to: Status) {
    match from
    case Unknown => to in {Up, Flapping}
    case Up => to in {Degraded, Down, Flapping}
    case Degraded => to in {Up, Down, Flapping}
    case Down => to in {Up, Flapping}
    case Flapping => to in {Up, Down}
    case Maintenance => false
    case Silent => false
  }

  /** Whatever the thresholds, every event of every run is an edge of the graph; in particular it changes the status. */
  lemma {:induction false} EventsFollowGraph(cfg: Config, calls: seq<Call>)
    ensures forall e | e in Events(cfg, calls) :: Edge(e.fromStatus, e.toStatus)
  {
    if calls != [] {
      EventsFollowGraph(cfg, Front(calls));
      LastEventIsEdge(cfg, calls);
    }
  }

  lemma LastEventIsEdge(cfg: Config, calls: seq<Call>)
    requires calls != []
    ensures LastEvent(cfg, calls).Some? ==>
              Edge(LastEvent(cfg, calls).value.fromStatus, LastEvent(cfg, calls).value.toStatus)
  {
    hide FlapsAfter;
    LastCall(cfg, calls);
  }

  /** A target that has never answered since it was created is UNKNOWN, or quiet, and emits nothing. */
  lemma {:induction false} NoSuccessNoEvent(cfg: Config, calls: seq<Call>)
    requires true !in Outcomes(calls)
    ensures StatusOf(cfg, calls) in {Unknown, Silent, Maintenance}
    ensures calls != [] ==> LastEvent(cfg, calls).None?
  {
    if calls != [] {
      hide After, LastEvent, LastRecordsFlap, FlapsAfter, StatusChange;
      LastCall(cfg, calls);
      if !Last(calls).Remove? {
        assert Last(calls).Probe? ==> Outcomes(calls)[|Outcomes(calls)| - 1] == Last(calls).result.success;
        assert forall v | v in Outcomes(Front(calls)) :: v in Outcomes(calls);
        NoSuccessNoEvent(cfg, Front(calls));
      }
      if Last(calls).Probe? {
        FailureKeepsUnknown(cfg, calls);
      }
    }
  }

  lemma FailureKeepsUnknown(cfg: Config, calls: seq<Call>)
    requires calls != [] && Last(calls).Probe? && !Last(calls).result.success
    ensures StatusOf(cfg, Front(calls)) in {Unknown, Silent, Maintenance} ==> !LastRecordsFlap(cfg, calls)
  {
  }

  // ---- quiet targets ----------------------------------------------------------------------------

  predicate Quiet(s: Status) {
    s in {Silent, Maintenance}
  }

  /** Only un-silencing, from SILENT itself, and removal end a quiet state; both lead to UNKNOWN, without an event. */
  lemma LeavingQuiet(cfg: Config, calls: seq<Call>)
    requires calls != [] && Quiet(StatusOf(cfg, Front(calls)))
    ensures LastEvent(cfg, calls).None?
    ensures Quiet(StatusOf(cfg, calls)) || StatusOf(cfg, calls) == Unknown
    ensures !Quiet(StatusOf(cfg, calls)) <==>
            || Last(calls).Remove?
            || (Last(calls).SetSilent? && !Last(calls).silent && StatusOf(cfg, Front(calls)) == Silent)
  {
    hide FlapsAfter, StatusChange;
    LastCall(cfg, calls);
  }

  /** Results alone, in any number, neither end a quiet state nor produce an event; the counters follow them still. */
  lemma {:induction false} QuietStays(cfg: Config, calls: seq<Call>, later: seq<Call>)
    requires Quiet(StatusOf(cfg, calls))
    requires forall i | 0 <= i < |later| :: later[i].Probe? || (later[i].SetSilent? && later[i].silent)
    ensures Quiet(StatusOf(cfg, calls + later))
    ensures Events(cfg, calls + later) == Events(cfg, calls)
    ensures Fails(cfg, calls + later) == Trailing(Outcomes(calls + later), false)
    ensures Successes(cfg, calls + later) == Trailing(Outcomes(calls + later), true)
  {
    hide After, LastEvent, LastRecordsFlap, Fails, Successes, Outcomes, Trailing;
    var all := calls + later;
    CountersOfRun(cfg, all);
    if later == [] {
      assert all == calls;
    } else {
      assert Front(all) == calls + Front(later) && Last(all) == later[|later| - 1];
      assert forall i | 0 <= i < |later| - 1 :: Front(later)[i] == later[i];
      QuietStays(cfg, calls, Front(later));
      LeavingQuiet(cfg, all);
    }
  }

  /** Silencing lasts until a result in a maintenance window turns it into MAINTENANCE, and exactly until then. */
  lemma {:induction false} SilenceLasts(cfg: Config, calls: seq<Call>, id: string, now: Time, later: seq<Call>)
    requires forall i | 0 <= i < |later| :: later[i].Probe?
    ensures var status := StatusOf(cfg, calls + [SetSilent(id, true, now)] + later);
            && status in {Silent, Maintenance}
            && (status == Silent <==>
                forall i | 0 <= i < |later| :: OutsideWindow(later[i].target, later[i].result.timestamp))
  {
    hide After, LastEvent, LastRecordsFlap;
    var silenced := calls + [SetSilent(id, true, now)];
    var all := silenced + later;
    LastCall(cfg, all);
    if later == [] {
      assert all == silenced && Last(silenced) == SetSilent(id, true, now);
    } else {
      assert Front(all) == silenced + Front(later) && Last(all) == later[|later| - 1];
      assert forall i | 0 <= i < |later| - 1 :: Front(later)[i] == later[i];
      SilenceLasts(cfg, calls, id, now, Front(later));
      RecordingAwake(cfg, all);
    }
  }

  lemma CountersOfRun(cfg: Config, calls: seq<Call>)
    ensures Fails(cfg, calls) == Trailing(Outcomes(calls), false)
    ensures Successes(cfg, calls) == Trailing(Outcomes(calls), true)
  {
    CountersAreTrailingRuns(cfg, calls);
  }

  // ---- replaying the log ------------------------------------------------------------------------

  datatype Entry = Emitted(event: Event) | Unsilenced | Removed

  /** The events of a run, together with the two other things that set the status of an awake target. */
  function Log(cfg: Config, calls: seq<Call>): seq<Entry> {
    if calls == [] then []
    else
      var log, call := Log(cfg, Front(calls)), Last(calls);
      if call.Remove? then log + [Removed]
      else if call.SetSilent? && !call.silent && StatusOf(cfg, Front(calls)) == Silent then log + [Unsilenced]
      else if LastEvent(cfg, calls).Some? then log + [Emitted(LastEvent(cfg, calls).value)]
      else log
  }

  function Replay(log: seq<Entry>): Status {
    if log != [] && Last(log).Emitted? then Last(log).event.toStatus else Unknown
  }

  function EmittedIn(log: seq<Entry>): seq<Event> {
    if log == [] then []
    else if Last(log).Emitted? then EmittedIn(Front(log)) + [Last(log).event]
    else EmittedIn(Front(log))
  }

  /**
   The log determines the status of every awake target, and each event starts from the status that the log before it
   replays to: where the previous event ended, or UNKNOWN after an un-silencing or a removal.
   */
  lemma {:induction false} LogReplays(cfg: Config, calls: seq<Call>)
    ensures EmittedIn(Log(cfg, calls)) == Events(cfg, calls)
    ensures !Quiet(StatusOf(cfg, calls)) ==> StatusOf(cfg, calls) == Replay(Log(cfg, calls))
    ensures forall i | 0 <= i < |Log(cfg, calls)| && Log(cfg, calls)[i].Emitted? ::
              Log(cfg, calls)[i].event.fromStatus == Replay(Log(cfg, calls)[..i])
  {
    if calls != [] {
      hide After, LastEvent, LastRecordsFlap, FlapsAfter, Replay;
      var before, log := Log(cfg, Front(calls)), Log(cfg, calls);
      LogReplays(cfg, Front(calls));
      LogStep(cfg, calls);
      assert |before| <= |log| && log[..|before|] == before;
      forall i | 0 <= i < |log| && log[i].Emitted? ensures log[i].event.fromStatus == Replay(log[..i]) {
        if i < |before| {
          assert log[..i] == before[..i];
        }
      }
      if log != before {
        Snoc(before, Last(log));
      }
    }
  }

  lemma LogStep(cfg: Config, calls: seq<Call>)
    requires calls != []
    requires !Quiet(StatusOf(cfg, Front(calls))) ==> StatusOf(cfg, Front(calls)) == Replay(Log(cfg, Front(calls)))
    ensures !Quiet(StatusOf(cfg, calls)) ==> StatusOf(cfg, calls) == Replay(Log(cfg, calls))
    ensures LastEvent(cfg, calls).Some? ==>
              && Last(calls).Probe?
              && LastEvent(cfg, calls).value.fromStatus == Replay(Log(cfg, Front(calls)))
  {
    hide After, LastEvent, LastRecordsFlap, FlapsAfter;
    LastCall(cfg, calls);
    RecordingAwake(cfg, calls);
  }

  lemma ReplayStep(cfg: Config, calls: seq<Call>)
    requires calls != []
    ensures LastEvent(cfg, calls).Some? && Last(calls).Probe? ==>
              Replay(Log(cfg, calls)) == LastEvent(cfg, calls).value.toStatus
    ensures LastEvent(cfg, calls).None? ==> Replay(Log(cfg, calls)) in {Unknown, Replay(Log(cfg, Front(calls)))}
  {
    hide After, LastEvent;
  }

  lemma RecordingAwake(cfg: Config, calls: seq<Call>)
    requires calls != []
    ensures LastRecordsFlap(cfg, calls) ==> !Quiet(StatusOf(cfg, Front(calls)))
  {
  }

  /** Two neighbours in the log: an event takes up the previous one's status unless something else came between. */
  lemma NextEventFollowsPrevious(cfg: Config, calls: seq<Call>, i: nat)
    requires i + 1 < |Log(cfg, calls)| && Log(cfg, calls)[i + 1].Emitted?
    ensures var prev, next := Log(cfg, calls)[i], Log(cfg, calls)[i + 1].event;
            next.fromStatus == if prev.Emitted? then prev.event.toStatus else Unknown
  {
    LogReplays(cfg, calls);
    assert Log(cfg, calls)[..i + 1][i] == Log(cfg, calls)[i];
  }

  // ---- durations --------------------------------------------------------------------------------

  /** The sum of the durations of all events but the first. */
  function DurationSum(events: seq<Event>): int {
    if |events| <= 1 then 0 else DurationSum(Front(events)) + Last(events).durationMs
  }

  lemma {:induction false} ChangedAtLastEvent(cfg: Config, calls: seq<Call>)
    requires NoRemove(calls)
    ensures Events(cfg, calls) != [] ==>
              && After(cfg, calls).Some?
              && After(cfg, calls).value.state.statusChangedAt == Last(Events(cfg, calls)).timestamp
  {
    if calls != [] {
      hide After, LastEvent;
      assert Last(calls) == calls[|calls| - 1];
      assert forall i | 0 <= i < |calls| - 1 :: Front(calls)[i] == calls[i];
      ChangedAtLastEvent(cfg, Front(calls));
      ChangedByLast(cfg, calls);
    }
  }

  /** A call that does not remove the target moves the instant of its last change exactly when it emits an event. */
  lemma {:induction false} ChangedByLast(cfg: Config, calls: seq<Call>)
    requires calls != [] && !Last(calls).Remove?
    ensures After(cfg, calls).Some?
    ensures LastEvent(cfg, calls).Some? ==>
              After(cfg, calls).value.state.statusChangedAt == LastEvent(cfg, calls).value.timestamp
    ensures LastEvent(cfg, calls).None? && After(cfg, Front(calls)).Some? ==>
              After(cfg, calls).value.state.statusChangedAt == After(cfg, Front(calls)).value.state.statusChangedAt
  {
    hide FlapsAfter, RecordsFlap, Derive;
  }

  lemma EventDuration(cfg: Config, calls: seq<Call>)
    requires calls != [] && NoRemove(calls) && Events(cfg, Front(calls)) != [] && LastEvent(cfg, calls).Some?
    ensures var e, prev := LastEvent(cfg, calls).value, Last(Events(cfg, Front(calls)));
            e.durationMs == TruncDiv(e.timestamp - prev.timestamp, 1_000_000)
  {
    hide FlapsAfter, RecordsFlap, Derive;
    assert Last(calls) == calls[|calls| - 1];
    assert forall i | 0 <= i < |calls| - 1 :: Front(calls)[i] == calls[i];
    ChangedAtLastEvent(cfg, Front(calls));
  }

  lemma {:induction false} EventsUpTo(cfg: Config, calls: seq<Call>, t: Time)
    requires AllBefore(calls, t)
    ensures forall e | e in Events(cfg, calls) :: e.timestamp <= t
  {
    if calls != [] {
      hide After, LastRecordsFlap, FlapsAfter, LastEvent;
      assert Last(calls) == calls[|calls| - 1];
      assert forall i | 0 <= i < |calls| - 1 :: Front(calls)[i] == calls[i];
      EventsUpTo(cfg, Front(calls), t);
      LastCall(cfg, calls);
    }
  }

  /** How far the durations fall short of the time between the first event and the last. */
  function Shortfall(events: seq<Event>): int
    requires events != []
  {
    Last(events).timestamp - events[0].timestamp - DurationSum(events) * 1_000_000
  }

  lemma ShortfallGrows(events: seq<Event>, e: Event)
    requires events != [] && e.durationMs == TruncDiv(e.timestamp - Last(events).timestamp, 1_000_000)
    ensures var more := Shortfall(events + [e]) - Shortfall(events);
            && -1_000_000 < more < 1_000_000
            && (Last(events).timestamp <= e.timestamp ==> 0 <= more)
  {
    hide TruncDiv;
    Snoc(events, e);
    assert (events + [e])[0] == events[0];
    assert DurationSum(events + [e]) == DurationSum(events) + e.durationMs;
  }

  /**
   Across silence and maintenance, the durations of k events add up to the time between the first and the last, up to
   less than a millisecond of truncation for each; while time does not run backwards they never exceed it.
   */
  lemma {:induction false} DurationsTelescope(cfg: Config, calls: seq<Call>)
    requires NoRemove(calls)
    ensures var es := Events(cfg, calls);
            |es| >= 2 ==>
              && -(|es| - 1) * 1_000_000 < Shortfall(es) < (|es| - 1) * 1_000_000
              && (Chronological(calls) ==> 0 <= Shortfall(es))
  {
    if calls != [] {
      hide After, LastEvent, DurationSum, Shortfall, Chronological;
      assert forall i | 0 <= i < |calls| - 1 :: Front(calls)[i] == calls[i];
      DurationsTelescope(cfg, Front(calls));
      var before := Events(cfg, Front(calls));
      if Chronological(calls) {
        ChronologicalFront(calls);
      }
      if LastEvent(cfg, calls).Some? && before != [] {
        if |before| == 1 {
          NoShortfall(before);
        }
        EventAddsShortfall(cfg, calls);
      }
    }
  }

  lemma {:induction false} EventAddsShortfall(cfg: Config, calls: seq<Call>)
    requires calls != [] && NoRemove(calls) && Events(cfg, Front(calls)) != [] && LastEvent(cfg, calls).Some?
    ensures var before := Events(cfg, Front(calls));
            var more := Shortfall(before + [LastEvent(cfg, calls).value]) - Shortfall(before);
            && -1_000_000 < more < 1_000_000
            && (Chronological(calls) ==> 0 <= more)
  {
    hide After, LastEvent, DurationSum, Shortfall, NoRemove, Events;
    var before, e := Events(cfg, Front(calls)), LastEvent(cfg, calls).value;
    EventDuration(cfg, calls);
    LastEventTime(cfg, calls);
    ShortfallGrows(before, e);
    if Chronological(calls) {
      ChronologicalFront(calls);
      EventsUpTo(cfg, Front(calls), e.timestamp);
      assert Last(before) in before;
    }
  }

  lemma NoShortfall(events: seq<Event>)
    requires |events| == 1
    ensures Shortfall(events) == 0
  {
  }

  lemma LastEventTime(cfg: Config, calls: seq<Call>)
    requires calls != [] && LastEvent(cfg, calls).Some?
    ensures Last(calls).Probe? && LastEvent(cfg, calls).value.timestamp == Last(calls).result.timestamp
  {
    LastCall(cfg, calls);
  }
}
