/** How the flap threshold bounds the rate of events, and exactly when a target leaves FLAPPING. */
module FlapStorm {
  import opened Model
  import opened Sequences
  import opened TargetMachine
  import opened Runs
  import Hysteresis

  function EventTimes(events: seq<Event>): seq<Time> {
    if events == [] then [] else EventTimes(Front(events)) + [Last(events).timestamp]
  }

  /** The number of events of a run with timestamps in [a, b]. */
  function EventCount(cfg: Config, calls: seq<Call>, a: Time, b: Time): nat {
    CountIn(EventTimes(Events(cfg, calls)), a, b)
  }

  /** The last call turns a silent target back on. */
  predicate Unsilences(cfg: Config, calls: seq<Call>)
    requires calls != []
  {
    Last(calls).SetSilent? && !Last(calls).silent && StatusOf(cfg, Front(calls)) == Silent
  }

  /** The target has been un-silenced since its latest probe. */
  predicate UnsilencedSinceProbe(cfg: Config, calls: seq<Call>) {
    if calls == [] || Last(calls).Probe? then false
    else Unsilences(cfg, calls) || UnsilencedSinceProbe(cfg, Front(calls))
  }

  /** The last call is a probe in [a, b], as is the latest one before it, and the target was un-silenced in between. */
  predicate SpansUnsilencing(cfg: Config, calls: seq<Call>, a: Time, b: Time)
    requires calls != []
  {
    var before := LastProbeAt(cfg, Front(calls));
    && Last(calls).Probe? && a <= Last(calls).result.timestamp <= b
    && before.Some? && a <= before.value <= b
    && UnsilencedSinceProbe(cfg, Front(calls))
  }

  /** The number of pairs of successive probes in [a, b] between which the target was un-silenced. */
  function UnsilenceCount(cfg: Config, calls: seq<Call>, a: Time, b: Time): nat {
    if calls == [] then 0
    else UnsilenceCount(cfg, Front(calls), a, b) + if SpansUnsilencing(cfg, calls, a, b) then 1 else 0
  }

  lemma EventCountGrows(cfg: Config, calls: seq<Call>, a: Time, b: Time)
    requires calls != []
    ensures EventCount(cfg, calls, a, b) == EventCount(cfg, Front(calls), a, b) +
            if LastEvent(cfg, calls).Some? && a <= LastEvent(cfg, calls).value.timestamp <= b then 1 else 0
  {
    hide LastEvent, After;
    if LastEvent(cfg, calls).Some? {
      var before, e := Events(cfg, Front(calls)), LastEvent(cfg, calls).value;
      Snoc(before, e);
      Snoc(EventTimes(before), e.timestamp);
    }
  }

  /** Every event is also a recorded change, so a window never holds more events than records. */
  lemma {:induction false} EventsAreRecorded(cfg: Config, calls: seq<Call>, a: Time, b: Time)
    requires NoRemove(calls) && Chronological(calls)
    ensures EventCount(cfg, calls, a, b) <= CountIn(Recorded(cfg, calls), a, b)
  {
    if calls != [] {
      assert Last(calls) == calls[|calls| - 1];
      ChronologicalFront(calls);
      assert NoRemove(Front(calls)) by {
        assert forall i | 0 <= i < |calls| - 1 :: Front(calls)[i] == calls[i];
      }
      EventsAreRecorded(cfg, Front(calls), a, b);
      EventCountGrows(cfg, calls, a, b);
      LastCall(cfg, calls);
      if LastRecordsFlap(cfg, calls) {
        FlapCountIsExact(cfg, calls);
        Snoc(Recorded(cfg, Front(calls)), Last(calls).result.timestamp);
      }
    }
  }

  /** No event of a run is later than the latest probe. */
  lemma {:induction false} EventsUpToLastProbe(cfg: Config, calls: seq<Call>, a: Time, b: Time)
    requires NoRemove(calls) && Chronological(calls)
    ensures EventCount(cfg, calls, a, b) > 0 ==> LastProbeAt(cfg, calls).Some? && a <= LastProbeAt(cfg, calls).value
  {
    if calls != [] {
      assert Last(calls) == calls[|calls| - 1];
      ChronologicalFront(calls);
      assert forall i | 0 <= i < |calls| - 1 :: Front(calls)[i] == calls[i];
      EventsUpToLastProbe(cfg, Front(calls), a, b);
      EventCountGrows(cfg, calls, a, b);
      LastCall(cfg, calls);
      LastProbeIsAProbe(cfg, Front(calls));
    }
  }

  lemma {:induction false} LastProbeIsAProbe(cfg: Config, calls: seq<Call>)
    ensures LastProbeAt(cfg, calls).Some? ==>
              exists i :: 0 <= i < |calls| && calls[i].Probe?
                          && calls[i].result.timestamp == LastProbeAt(cfg, calls).value
  {
    if calls != [] {
      LastProbeIsAProbe(cfg, Front(calls));
      LastCall(cfg, calls);
      if Last(calls).Probe? {
        assert calls[|calls| - 1].result.timestamp == LastProbeAt(cfg, calls).value;
      } else if LastProbeAt(cfg, calls).Some? {
        var i :| 0 <= i < |calls| - 1 && Front(calls)[i].Probe?
                 && Front(calls)[i].result.timestamp == LastProbeAt(cfg, calls).value;
        assert calls[i].result.timestamp == LastProbeAt(cfg, calls).value;
      }
    }
  }

  /** A probe inside a window that ends at b, when the window already holds n events, counts at least n + 1 changes. */
  lemma RecordedInWindow(cfg: Config, calls: seq<Call>, b: Time)
    requires calls != [] && Last(calls).Probe? && LastRecordsFlap(cfg, calls)
    requires NoRemove(calls) && Chronological(calls)
    requires b - cfg.flapWindow <= Last(calls).result.timestamp <= b
    ensures |FlapsOf(After(cfg, calls))| > EventCount(cfg, Front(calls), b - cfg.flapWindow, b)
  {
    hide After, LastRecordsFlap;
    var a, t := b - cfg.flapWindow, Last(calls).result.timestamp;
    ChronologicalFront(calls);
    assert forall i | 0 <= i < |calls| - 1 :: Front(calls)[i] == calls[i];
    EventsAreRecorded(cfg, Front(calls), a, b);
    FlapCountIsExact(cfg, calls);
    Snoc(Recorded(cfg, Front(calls)), t);
    CountInWithinCountFrom(Recorded(cfg, calls), a, b, t - cfg.flapWindow);
  }

  /**
   The event-storm bound, with what makes it inductive: once the window is full, an awake target that is not
   FLAPPING owes its status to an un-silencing that has not been paid for by an event yet, be it one between two probes
   of the window or one since the latest probe.
   */
  ghost predicate StormInvariant(cfg: Config, calls: seq<Call>, b: Time) {
    var a, k := b - cfg.flapWindow, cfg.flapThreshold;
    var events, unsilenced := EventCount(cfg, calls, a, b), UnsilenceCount(cfg, calls, a, b);
    && events <= k + unsilenced
    && (events >= k && StatusOf(cfg, calls) !in {Flapping, Silent, Maintenance}
        && LastProbeAt(cfg, calls).Some? && LastProbeAt(cfg, calls).value <= b
        ==> events < k + unsilenced + if UnsilencedSinceProbe(cfg, calls) then 1 else 0)
  }

  lemma RecordingIsAwake(cfg: Config, calls: seq<Call>)
    requires calls != [] && LastRecordsFlap(cfg, calls)
    ensures StatusOf(cfg, Front(calls)) !in {Silent, Maintenance}
  {
  }

  lemma {:induction false} StormStep(cfg: Config, calls: seq<Call>, b: Time)
    requires calls != [] && NoRemove(calls) && Chronological(calls) && cfg.flapThreshold >= 1
    requires StormInvariant(cfg, Front(calls), b)
    ensures StormInvariant(cfg, calls, b)
  {
    hide After, LastRecordsFlap, LastEvent, FlapsAfter, Events, Derive, EventCount, Chronological;
    var a := b - cfg.flapWindow;
    assert Last(calls) == calls[|calls| - 1];
    ChronologicalFront(calls);
    assert forall i | 0 <= i < |calls| - 1 :: Front(calls)[i] == calls[i];
    LastCall(cfg, calls);
    EventCountGrows(cfg, calls, a, b);
    EventsUpToLastProbe(cfg, Front(calls), a, b);
    LastProbeIsAProbe(cfg, Front(calls));
    if Last(calls).Probe? && LastRecordsFlap(cfg, calls) {
      RecordingIsAwake(cfg, calls);
      if a <= Last(calls).result.timestamp <= b {
        RecordedInWindow(cfg, calls, b);
      }
    }
  }

  lemma {:induction false} StormHolds(cfg: Config, calls: seq<Call>, b: Time)
    requires NoRemove(calls) && Chronological(calls) && cfg.flapThreshold >= 1
    ensures StormInvariant(cfg, calls, b)
  {
    if calls != [] {
      hide StormInvariant;
      ChronologicalFront(calls);
      assert forall i | 0 <= i < |calls| - 1 :: Front(calls)[i] == calls[i];
      StormHolds(cfg, Front(calls), b);
      StormStep(cfg, calls, b);
    }
  }

  /**
   In any run without removal whose timestamps do not run backwards, a closed time window as long as the flap window
   holds at most flapThreshold events, plus one for each pair of successive probes in it with an un-silencing between.
   */
  lemma EventStormBound(cfg: Config, calls: seq<Call>, a: Time)
    requires NoRemove(calls) && Chronological(calls) && cfg.flapThreshold >= 1
    ensures EventCount(cfg, calls, a, a + cfg.flapWindow) <=
            cfg.flapThreshold + UnsilenceCount(cfg, calls, a, a + cfg.flapWindow)
  {
    StormHolds(cfg, calls, a + cfg.flapWindow);
  }

  /** An event with flapThreshold - 1 others before it in its window always leads to FLAPPING. */
  lemma ThresholdEventFlaps(cfg: Config, calls: seq<Call>)
    requires calls != [] && NoRemove(calls) && Chronological(calls) && LastEvent(cfg, calls).Some?
    requires cfg.flapWindow >= 0
    requires var t := LastEvent(cfg, calls).value.timestamp;
             EventCount(cfg, Front(calls), t - cfg.flapWindow, t) >= cfg.flapThreshold - 1
    ensures LastEvent(cfg, calls).value.toStatus == Flapping
  {
    LastCall(cfg, calls);
    RecordedInWindow(cfg, calls, LastEvent(cfg, calls).value.timestamp);
  }

  // ---- leaving FLAPPING -------------------------------------------------------------------------

  /**
   A probe outside maintenance leaves FLAPPING exactly when too few changes, this one included, are left in the
   window; it then goes to UP on a long enough success run and to DOWN otherwise, and says so in an event.
   */
  lemma FlappingExit(cfg: Config, calls: seq<Call>)
    requires calls != [] && Chronological(calls) && Last(calls).Probe?
    requires StatusOf(cfg, Front(calls)) == Flapping
    requires OutsideWindow(Last(calls).target, Last(calls).result.timestamp)
    ensures var t := Last(calls).result.timestamp;
            && Recorded(cfg, calls) == Recorded(cfg, Front(calls)) + [t]
            && (StatusOf(cfg, calls) != Flapping <==>
                CountFrom(Recorded(cfg, calls), t - cfg.flapWindow) < cfg.flapThreshold)
            && (cfg.flapWindow >= 0 ==>
                  (StatusOf(cfg, calls) != Flapping <==>
                   CountFrom(Recorded(cfg, Front(calls)), t - cfg.flapWindow) < cfg.flapThreshold - 1))
            && (StatusOf(cfg, calls) != Flapping ==>
                  && (var own := Last(calls).target.alertConfig.recoveryThreshold;
                      var enough := if own > 0 then own else cfg.recoveryThreshold;
                      var run := Hysteresis.Trailing(Hysteresis.Outcomes(calls), true);
                      StatusOf(cfg, calls) == if run >= enough then Up else Down)
                  && LastEvent(cfg, calls).Some?)
  {
    LastCall(cfg, calls);
    assert LastRecordsFlap(cfg, calls);
    FlapCountIsExact(cfg, calls);
    Hysteresis.CountersAreTrailingRuns(cfg, calls);
    Hysteresis.CountersAfterLast(cfg, calls);
    Snoc(Recorded(cfg, Front(calls)), Last(calls).result.timestamp);
  }

  /** The last n entries of ts, followed by t, are at most gap apart. */
  ghost predicate Dense(ts: seq<Time>, n: nat, t: Time, gap: int) {
    && n <= |ts|
    && (n > 0 ==> t - ts[|ts| - 1] <= gap)
    && forall i | |ts| - n <= i < |ts| - 1 :: ts[i + 1] - ts[i] <= gap
  }

  lemma OneGapMore(n: nat, gap: int)
    requires n > 0 && gap >= 0
    ensures n * gap == (n - 1) * gap + gap && gap <= n * gap
  {
  }

  lemma {:induction false} DenseReach(ts: seq<Time>, n: nat, t: Time, gap: int)
    requires Dense(ts, n, t, gap) && gap >= 0
    ensures CountFrom(ts, t - n * gap) >= n
  {
    if n > 0 {
      var u, reach := Last(ts), t - n * gap;
      OneGapMore(n, gap);
      assert Dense(Front(ts), n - 1, u, gap) by {
        assert forall i | 0 <= i < |ts| - 1 :: Front(ts)[i] == ts[i];
      }
      DenseReach(Front(ts), n - 1, u, gap);
      CountFromMonotone(Front(ts), reach, u - (n - 1) * gap);
    }
  }

  lemma {:induction false} CountFromMonotone(ts: seq<Time>, a: Time, b: Time)
    requires a <= b
    ensures CountFrom(ts, a) >= CountFrom(ts, b)
  {
    if ts != [] {
      CountFromMonotone(Front(ts), a, b);
    }
  }

  /**
   A flapping target whose last flapThreshold - 1 recorded changes and all later probes come at most gap apart,
   with (flapThreshold - 1) * gap within the window, stays FLAPPING whatever the outcomes of the probes.
   */
  lemma {:induction false} FlappingPersists(cfg: Config, calls: seq<Call>, later: seq<Call>, gap: int)
    requires Chronological(calls + later) && ProbesOutsideMaintenance(later)
    requires StatusOf(cfg, calls) == Flapping
    requires cfg.flapThreshold >= 1 && gap >= 0 && (cfg.flapThreshold - 1) * gap <= cfg.flapWindow
    requires later != [] ==> Dense(Recorded(cfg, calls), cfg.flapThreshold - 1, later[0].result.timestamp, gap)
    requires forall i | 0 <= i < |later| - 1 :: later[i + 1].result.timestamp - later[i].result.timestamp <= gap
    ensures StatusOf(cfg, calls + later) == Flapping
    ensures later != [] ==>
              Dense(Recorded(cfg, calls + later), cfg.flapThreshold - 1, Last(later).result.timestamp + gap, gap)
  {
    hide After, Recorded, Dense;
    if later == [] {
      assert calls + later == calls;
    } else {
      var all, n := calls + later, cfg.flapThreshold - 1;
      assert Front(all) == calls + Front(later) && Last(all) == Last(later);
      ChronologicalFront(all);
      assert forall i | 0 <= i < |later| - 1 :: Front(later)[i] == later[i];
      FlappingPersists(cfg, calls, Front(later), gap);
      if |later| == 1 {
        assert Front(all) == calls;
      } else {
        var u := Last(Front(later)).result.timestamp + gap;
        DenseSooner(Recorded(cfg, Front(all)), n, u, Last(later).result.timestamp, gap);
      }
      PersistsOnce(cfg, all, gap);
    }
  }

  lemma PersistsOnce(cfg: Config, calls: seq<Call>, gap: int)
    requires calls != [] && Chronological(calls) && Last(calls).Probe?
    requires OutsideWindow(Last(calls).target, Last(calls).result.timestamp)
    requires StatusOf(cfg, Front(calls)) == Flapping
    requires cfg.flapThreshold >= 1 && gap >= 0 && (cfg.flapThreshold - 1) * gap <= cfg.flapWindow
    requires Dense(Recorded(cfg, Front(calls)), cfg.flapThreshold - 1, Last(calls).result.timestamp, gap)
    ensures StatusOf(cfg, calls) == Flapping
    ensures Dense(Recorded(cfg, calls), cfg.flapThreshold - 1, Last(calls).result.timestamp + gap, gap)
  {
    hide After, Recorded, Dense, Observed;
    var before, n, t := Recorded(cfg, Front(calls)), cfg.flapThreshold - 1, Last(calls).result.timestamp;
    DenseReach(before, n, t, gap);
    CountFromMonotone(before, t - cfg.flapWindow, t - n * gap);
    assert n * gap >= 0;
    FlappingExit(cfg, calls);
    DenseExtends(before, n, t, gap);
  }

  lemma DenseSooner(ts: seq<Time>, n: nat, u: Time, t: Time, gap: int)
    requires Dense(ts, n, u, gap) && t <= u
    ensures Dense(ts, n, t, gap)
  {
  }

  lemma DenseExtends(ts: seq<Time>, n: nat, t: Time, gap: int)
    requires Dense(ts, n, t, gap)
    ensures Dense(ts + [t], n, t + gap, gap)
  {
  }
}
