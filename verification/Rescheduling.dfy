/** When the probes of a target start: how long the scheduler waits after Add, after a success and after a failure. */
module Rescheduling {
  import opened Model
  import opened Sequences
  import P = TimerProtocol
  import M = TargetMachine
  import opened Detection

  /** A probe starts, or comes back with its outcome. */
  datatype Mark = Started(at: Time) | Returned(at: Time, success: bool)

  /** What one chain of the target does in the course of the beats. */
  function Marks(m: Monitor, t: Target, ph: Phase, beats: seq<Beat>): seq<Mark> {
    if beats == [] then []
    else
      var now, b := PhaseAlong(m, t, ph, Front(beats)), Last(beats);
      Marks(m, t, ph, Front(beats))
      + if now.Waiting? && b.action.Fire? && b.action.h == now.h then [Started(b.at)]
        else if now.Flying? && b.action.Finish? && b.action.h == now.h then [Returned(b.at, b.result.success)]
        else []
  }

  /** What all chains of the target do together. */
  function TargetMarks(m: Monitor, t: Target, beats: seq<Beat>): seq<Mark> {
    if beats == [] then []
    else
      var s, b := Play(m, t, Front(beats)), Last(beats);
      TargetMarks(m, t, Front(beats))
      + if b.action.Fire? && b.action.h in P.Pending(s.sched, t.id) then [Started(b.at)]
        else if Lands(s, t.id, b) then [Returned(b.at, b.result.success)]
        else []
  }

  /** Beats on time that leave the target registered, whatever their results. */
  ghost predicate TimelyPlay(m: Monitor, t: Target, beats: seq<Beat>, maxProbe: int) {
    beats == [] ||
    (&& TimelyPlay(m, t, Front(beats), maxProbe)
     && Undisturbed(Last(beats).action, t.id)
     && Timely(Play(m, t, Front(beats)), t.id, Last(beats), maxProbe))
  }

  /**
   Probes come back one by one, and the next one starts exactly one interval after a success, and after a failure half
   an interval later, but not before five seconds have passed. An interval that is not positive is none.
   */
  ghost predicate OnSchedule(t: Target, marks: seq<Mark>) {
    forall i | 0 <= i < |marks| - 1 ::
      match marks[i]
      case Started(_) => marks[i + 1].Returned?
      case Returned(at, true) => marks[i + 1] == Started(at + Max(t.intervalSec * 1_000_000_000, 0))
      case Returned(at, false) => marks[i + 1] == Started(at + Max(t.intervalSec * 500_000_000, 5_000_000_000))
  }

  /** The phase that a chain is in after its latest mark. */
  ghost predicate FollowsMark(t: Target, mark: Mark, ph: Phase) {
    match mark
    case Started(at) => ph.Flying? && ph.started == at
    case Returned(at, success) =>
      ph.Waiting? && ph.deadline == at + if success then RegularWait(t) else RetryWait(t)
  }

  ghost predicate StartsWith(mark: Mark, ph: Phase) {
    match ph
    case Waiting(_, deadline) => mark == Started(deadline)
    case Flying(_, _) => mark.Returned?
  }

  /** Each chain keeps its schedule by itself, whatever other targets and other chains do. */
  lemma {:induction false} ChainKeepsSchedule(m: Monitor, t: Target, ph: Phase, beats: seq<Beat>, maxProbe: int)
    requires InPhase(m.sched, t, ph) && TimelyPlay(m, t, beats, maxProbe)
    ensures var marks, now := Marks(m, t, ph, beats), PhaseAlong(m, t, ph, beats);
            && OnSchedule(t, marks)
            && InPhase(Play(m, t, beats).sched, t, now)
            && (if marks == [] then now == ph else StartsWith(marks[0], ph) && FollowsMark(t, Last(marks), now))
  {
    if beats != [] {
      hide InPhase, Timely, FollowsMark, OnSchedule, Undisturbed, P.Next;
      var before, now, b := Play(m, t, Front(beats)), PhaseAlong(m, t, ph, Front(beats)), Last(beats);
      ChainKeepsSchedule(m, t, ph, Front(beats), maxProbe);
      PhaseStep(before.sched, t, now, b.action);
      MarkOnTime(before, t, now, b, maxProbe);
      OneMoreMark(
        t, Marks(m, t, ph, Front(beats)), Marks(m, t, ph, beats), now, PhaseAfter(before.sched, t, now, b.action));
    } else {
      assert OnSchedule(t, []);
    }
  }

  lemma OneMoreMark(t: Target, marks: seq<Mark>, marks': seq<Mark>, now: Phase, now': Phase)
    requires OnSchedule(t, marks) && (marks != [] ==> FollowsMark(t, Last(marks), now))
    requires if marks' == marks then now' == now
             else |marks'| == |marks| + 1 && Front(marks') == marks && StartsWith(Last(marks'), now)
                  && FollowsMark(t, Last(marks'), now')
    ensures OnSchedule(t, marks')
    ensures marks' != [] ==> FollowsMark(t, Last(marks'), now')
  {
    if marks' != marks {
      assert forall i | 0 <= i < |marks| :: marks'[i] == marks[i];
    }
  }

  /** What a beat does to the phase, when it is on time. */
  lemma MarkOnTime(m: Monitor, t: Target, ph: Phase, b: Beat, maxProbe: int)
    requires InPhase(m.sched, t, ph) && Timely(m, t.id, b, maxProbe)
    ensures var ph' := PhaseAfter(m.sched, t, ph, b.action);
            if ph.Waiting? && b.action.Fire? && b.action.h == ph.h then
              b.at == ph.deadline && FollowsMark(t, Started(b.at), ph')
            else if ph.Flying? && b.action.Finish? && b.action.h == ph.h then
              FollowsMark(t, Returned(b.at, b.result.success), ph')
            else ph' == ph
  {
    hide P.Due, P.RescheduleDelay, P.Interval, P.Next, RegularWait, RetryWait;
    match ph
    case Waiting(h, _) => assert h in P.Pending(m.sched, t.id);
    case Flying(h, _) =>
      assert h in P.InFlight(m.sched, t.id);
      Waits(t, b.result.success, b.at);
  }

  /** An only chain is all that happens to the target. */
  lemma {:induction false} OnlyChainMarks(m: Monitor, t: Target, ph: Phase, beats: seq<Beat>, maxProbe: int)
    requires InPhase(m.sched, t, ph) && TimelyPlay(m, t, beats, maxProbe) && P.Chains(m.sched, t.id) == {ph.h}
    ensures TargetMarks(m, t, beats) == Marks(m, t, ph, beats)
    ensures P.Chains(Play(m, t, beats).sched, t.id) == {PhaseAlong(m, t, ph, beats).h}
    ensures InPhase(Play(m, t, beats).sched, t, PhaseAlong(m, t, ph, beats))
  {
    if beats != [] {
      hide InPhase, Timely, Undisturbed, P.Next, P.Chains, P.Pending, P.InFlight;
      var before, now, b := Play(m, t, Front(beats)), PhaseAlong(m, t, ph, Front(beats)), Last(beats);
      OnlyChainMarks(m, t, ph, Front(beats), maxProbe);
      PhaseStep(before.sched, t, now, b.action);
      OnlyChainIs(before.sched, t, now);
    }
  }

  lemma OnlyChainIs(s: P.State, t: Target, ph: Phase)
    requires InPhase(s, t, ph) && P.Chains(s, t.id) == {ph.h}
    ensures forall h :: h in P.Pending(s, t.id) <==> ph.Waiting? && h == ph.h
    ensures forall h :: h in P.InFlight(s, t.id) <==> ph.Flying? && h == ph.h
  {
    assert forall h | h in P.Pending(s, t.id) || h in P.InFlight(s, t.id) :: h in P.Chains(s, t.id);
  }

  /**
   After any run of the scheduler, a target that is added, and then neither added again nor removed nor stopped, is
   first probed exactly one interval later, and from then on its chain keeps the schedule. If it was only added while
   idle these are all the probes of it there are.
   */
  lemma AddedTargetKeepsSchedule(
      actions: seq<P.Action>, t: Target, at: Time, calls: seq<M.Call>, beats: seq<Beat>, maxProbe: int)
    requires TimelyPlay(Monitor(P.Exec(actions + [P.Add(t, at)]), calls, at), t, beats, maxProbe)
    ensures var m := Monitor(P.Exec(actions + [P.Add(t, at)]), calls, at);
            var h, first := P.Exec(actions).next, at + Max(t.intervalSec * 1_000_000_000, 0);
            var marks := Marks(m, t, Waiting(h, first), beats);
            && InPhase(m.sched, t, Waiting(h, first))
            && (marks != [] ==> marks[0] == Started(first))
            && OnSchedule(t, marks)
            && (P.OverlappingAdds(actions + [P.Add(t, at)], t.id) == 0 ==> TargetMarks(m, t, beats) == marks)
  {
    hide Marks, TargetMarks, TimelyPlay, OnSchedule, P.OverlappingAdds;
    var added := actions + [P.Add(t, at)];
    var m := Monitor(P.Exec(added), calls, at);
    var ph := Waiting(P.Exec(actions).next, at + RegularWait(t));
    Snoc(actions, P.Add(t, at));
    P.ExecWellFormed(actions);
    P.ExecWellFormed(added);
    Waits(t, true, at);
    assert InPhase(m.sched, t, ph);
    ChainKeepsSchedule(m, t, ph, beats, maxProbe);
    if P.OverlappingAdds(added, t.id) == 0 {
      assert !P.StoppedSinceAdd(added, t.id);
      P.ExactlyOneChain(added, t.id);
      assert ph.h in P.Chains(m.sched, t.id);
      Singleton(P.Chains(m.sched, t.id), ph.h);
      OnlyChainMarks(m, t, ph, beats, maxProbe);
    }
  }
}
