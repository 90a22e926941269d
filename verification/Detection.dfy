/**
 The scheduler and the state machine together: how soon a target whose probes have begun to fail is found DOWN.
 The only timing assumptions are that a timer fires when it is due and that a probe lasts no longer than a bound.
 */
module Detection {
  import opened Model
  import opened Sequences
  import P = TimerProtocol
  import M = TargetMachine
  import Runs
  import Hysteresis

  /** The scheduler, the calls that its handler has made about one target, and the time. */
  datatype Monitor = Monitor(sched: P.State, calls: seq<M.Call>, now: Time)

  /**
   One step at one instant. A probe of the target that comes back brings a result for the state machine, which goes by
   the target as the handler finds it then, whatever version the probe was started with.
   */
  datatype Beat = Beat(at: Time, action: P.Action, result: ProbeResult)

  predicate Lands(m: Monitor, id: string, b: Beat) {
    b.action.Finish? && b.action.h in P.InFlight(m.sched, id)
  }

  function Step(m: Monitor, t: Target, b: Beat): Monitor {
    Monitor(P.Next(m.sched, b.action),
            if Lands(m, t.id, b) then m.calls + [M.Probe(b.result, t, b.at)] else m.calls,
            b.at)
  }

  function Play(m: Monitor, t: Target, beats: seq<Beat>): Monitor {
    if beats == [] then m else Step(Play(m, t, Front(beats)), t, Last(beats))
  }

  /** Where one chain of the target is: waiting for a deadline, or in flight since an instant. */
  datatype Phase = Waiting(h: nat, deadline: Time) | Flying(h: nat, started: Time)

  /** The chain carries the target as it stands. There may be others beside it. */
  ghost predicate InPhase(s: P.State, t: Target, ph: Phase) {
    && P.WellFormed(s) && t.id in s.targets
    && match ph
       case Waiting(h, deadline) => h in s.armed && s.armed[h] == P.Timer(t, deadline)
       case Flying(h, started) => h in s.running && s.running[h] == P.Flight(t, started)
  }

  /** The step does not concern the target's registration: no Stop, and no Add or Remove of it. */
  predicate Undisturbed(a: P.Action, id: string) {
    !a.Stop? && (a.Add? ==> a.target.id != id) && (a.Remove? ==> a.id != id)
  }

  /**
   Time moves on, but not past the moment at which a timer of the target is due, when it fires, nor past the moment at
   which a probe of the target has run out of time.
   */
  ghost predicate Timely(m: Monitor, id: string, b: Beat, maxProbe: int) {
    && m.now <= b.at
    && NothingOverdue(m.sched, id, b.at, maxProbe)
    && (b.action.Fire? && b.action.h in P.Pending(m.sched, id) ==>
          b.at == b.action.now == m.sched.armed[b.action.h].deadline)
    && (Lands(m, id, b) ==> b.action.now == b.at && b.action.success == b.result.success)
  }

  ghost predicate NothingOverdue(s: P.State, id: string, now: Time, maxProbe: int) {
    && (forall h | h in P.Pending(s, id) :: now <= s.armed[h].deadline)
    && (forall h | h in P.InFlight(s, id) :: now <= s.running[h].started + maxProbe)
  }

  function PhaseAfter(s: P.State, t: Target, ph: Phase, a: P.Action): Phase {
    if ph.Waiting? && a.Fire? && a.h == ph.h then Flying(ph.h, a.now)
    else if ph.Flying? && a.Finish? && a.h == ph.h then Waiting(s.next, P.Due(a.now, P.RescheduleDelay(t, a.success)))
    else ph
  }

  ghost predicate IsChain(s: P.State, id: string, g: nat) {
    || (g in s.armed && s.armed[g].target.id == id)
    || (g in s.running && s.running[g].target.id == id)
  }

  lemma ChainsAre(s: P.State, id: string)
    ensures forall g :: IsChain(s, id, g) <==> g in P.Chains(s, id)
  {
  }

  /** Which handles are chains of a target after a step that leaves its registration alone. */
  lemma ChainAfter(s: P.State, a: P.Action, id: string, g: nat)
    requires P.WellFormed(s) && Undisturbed(a, id) && id in s.targets
    ensures IsChain(P.Next(s, a), id, g) <==>
            if a.Finish? && a.h in s.running && s.running[a.h].target.id == id
            then (IsChain(s, id, g) && g != a.h) || g == s.next
            else IsChain(s, id, g)
    ensures id in P.Next(s, a).targets
  {
    hide P.Due, P.RescheduleDelay, P.Interval;
  }

  /** Whatever other targets and other chains do; and if the chain was the target's only one, it still is. */
  lemma PhaseStep(s: P.State, t: Target, ph: Phase, a: P.Action)
    requires InPhase(s, t, ph) && Undisturbed(a, t.id)
    ensures InPhase(P.Next(s, a), t, PhaseAfter(s, t, ph, a))
    ensures P.Chains(s, t.id) == {ph.h} ==> P.Chains(P.Next(s, a), t.id) == {PhaseAfter(s, t, ph, a).h}
  {
    var s', ph' := P.Next(s, a), PhaseAfter(s, t, ph, a);
    assert P.WellFormed(s') && t.id in s'.targets by {
      hide P.Due, P.RescheduleDelay, P.Interval, P.Chains, P.Next;
      P.NextWellFormed(s, a);
      ChainAfter(s, a, t.id, 0);
    }
    if P.Chains(s, t.id) == {ph.h} {
      OnlyChainStep(s, t, ph, a);
    }
    hide P.Chains, P.WellFormed, P.Due, P.RescheduleDelay, P.Interval;
    PhaseHolds(s, t, ph, a);
  }

  lemma OnlyChainStep(s: P.State, t: Target, ph: Phase, a: P.Action)
    requires InPhase(s, t, ph) && Undisturbed(a, t.id) && P.Chains(s, t.id) == {ph.h}
    ensures P.Chains(P.Next(s, a), t.id) == {PhaseAfter(s, t, ph, a).h}
  {
    hide P.Due, P.RescheduleDelay, P.Interval, P.Chains, P.Next;
    var s', ph' := P.Next(s, a), PhaseAfter(s, t, ph, a);
    ChainsAre(s, t.id);
    ChainsAre(s', t.id);
    PhaseHolds(s, t, ph, a);
    assert a.Finish? && a.h in s.running && s.running[a.h].target.id == t.id ==> IsChain(s, t.id, a.h);
    forall g: nat ensures g in P.Chains(s', t.id) <==> g == ph'.h {
      ChainAfter(s, a, t.id, g);
    }
  }

  lemma PhaseHolds(s: P.State, t: Target, ph: Phase, a: P.Action)
    requires InPhase(s, t, ph) && Undisturbed(a, t.id)
    ensures ph.h < s.next && (ph.Waiting? ==> ph.h !in s.running) && (ph.Flying? ==> ph.h !in s.armed)
    ensures var s' := P.Next(s, a);
            match PhaseAfter(s, t, ph, a)
            case Waiting(h, deadline) => h in s'.armed && s'.armed[h] == P.Timer(t, deadline)
            case Flying(h, started) => h in s'.running && s'.running[h] == P.Flight(t, started)
  {
    hide P.Due, P.RescheduleDelay, P.Interval, P.Chains;
  }

  // ---- how a run of the scheduler comes to be in a phase ------------------------------------------

  /** A target only added while it was idle is probed as it was last added. */
  lemma {:induction false} ChainProbesCurrentTarget(actions: seq<P.Action>, id: string)
    requires id in P.Exec(actions).targets && P.OverlappingAdds(actions, id) == 0
    ensures ProbesCurrent(P.Exec(actions), id)
  {
    if actions != [] {
      hide P.Due, P.RescheduleDelay, P.Interval, P.Unreachable, P.Registered;
      var s, a := P.Exec(Front(actions)), Last(actions);
      P.ExecWellFormed(Front(actions));
      P.ExecWellFormed(actions);
      if a.Add? && a.target.id == id {
        OnlyTheNewChain(s, a.target, a.now, Front(actions));
      } else {
        ChainProbesCurrentTarget(Front(actions), id);
        CurrentTargetStays(s, a, id);
      }
    }
  }

  ghost predicate ProbesCurrent(s: P.State, id: string) {
    id in s.targets &&
    forall h | IsChain(s, id, h) ::
      (h in s.armed ==> s.armed[h].target == s.targets[id]) && (h in s.running ==> s.running[h].target == s.targets[id])
  }

  lemma CurrentTargetStays(s: P.State, a: P.Action, id: string)
    requires P.WellFormed(s) && ProbesCurrent(s, id)
    requires !(a.Add? && a.target.id == id) && id in P.Next(s, a).targets
    ensures ProbesCurrent(P.Next(s, a), id)
  {
    hide P.Due, P.RescheduleDelay, P.Interval;
  }

  lemma OnlyTheNewChain(s: P.State, t: Target, now: Time, actions: seq<P.Action>)
    requires s == P.Exec(actions) && P.WellFormed(s)
    requires P.OverlappingAdds(actions, t.id) == 0 && P.InFlight(s, t.id) == {}
    ensures var s' := P.Next(s, P.Add(t, now));
            ProbesCurrent(s', t.id)
  {
    var s' := P.Next(s, P.Add(t, now));
    P.ExecBounded(actions, t.id);
    P.NextWellFormed(s, P.Add(t, now));
    P.AddReaches(s, t, now, t.id);
    P.RegisteredIsOne(s', t.id);
    assert P.Unreachable(s, t.id) == {};
    assert s.next in P.Registered(s', t.id);
    ChainsAre(s', t.id);
  }

  predicate HappensBy(a: P.Action, now: Time) {
    match a
    case Add(_, at) => at <= now
    case Fire(_, at) => at <= now
    case Finish(_, _, at) => at <= now
    case _ => true
  }

  function Max(x: int, y: int): int {
    if x < y then y else x
  }

  /** The wait before the first probe and after one that succeeded, the wait after one that failed, and the longer. */
  function RegularWait(t: Target): int {
    Max(t.intervalSec * 1_000_000_000, 0)
  }

  function RetryWait(t: Target): int {
    Max(t.intervalSec * 500_000_000, 5_000_000_000)
  }

  function LongestWait(t: Target): int {
    Max(t.intervalSec * 1_000_000_000, 5_000_000_000)
  }

  lemma Waits(t: Target, success: bool, now: Time)
    ensures P.Due(now, P.RescheduleDelay(t, success)) == now + if success then RegularWait(t) else RetryWait(t)
    ensures P.Due(now, P.Interval(t)) == now + RegularWait(t)
    ensures 0 <= RegularWait(t) <= LongestWait(t) && 0 < RetryWait(t) <= LongestWait(t)
  {
  }

  /** No pending timer is due later than its target's longest wait from now, and every flight has started by now. */
  ghost predicate TimersAreNear(s: P.State, now: Time) {
    && (forall h | h in s.armed :: s.armed[h].deadline <= now + LongestWait(s.armed[h].target))
    && (forall h | h in s.running :: s.running[h].started <= now)
  }

  lemma StaysNear(s: P.State, a: P.Action, now: Time)
    requires TimersAreNear(s, now) && HappensBy(a, now)
    ensures TimersAreNear(P.Next(s, a), now)
  {
    hide LongestWait, RegularWait, RetryWait, P.Due, P.RescheduleDelay, P.Interval;
    match a
    case Add(target, at) => Waits(target, true, at);
    case Finish(h, success, at) =>
      if h in s.running {
        Waits(s.running[h].target, success, at);
      }
    case _ =>
  }

  lemma {:induction false} RunKeepsTimersNear(actions: seq<P.Action>, now: Time)
    requires forall i | 0 <= i < |actions| :: HappensBy(actions[i], now)
    ensures TimersAreNear(P.Exec(actions), now)
  {
    if actions != [] {
      hide TimersAreNear, P.Next;
      assert forall i | 0 <= i < |actions| - 1 :: Front(actions)[i] == actions[i];
      RunKeepsTimersNear(Front(actions), now);
      StaysNear(P.Exec(Front(actions)), Last(actions), now);
    } else {
      assert TimersAreNear(P.INITIAL, now);
    }
  }

  /** Some chain of the target carries it as it stands. */
  ghost predicate HasCurrentChain(s: P.State, id: string) {
    id in s.targets && exists h :: CarriesCurrent(s, id, h)
  }

  ghost predicate CarriesCurrent(s: P.State, id: string, h: nat)
    requires id in s.targets
  {
    || (h in s.armed && s.armed[h].target == s.targets[id])
    || (h in s.running && s.running[h].target == s.targets[id])
  }

  /**
   In every interleaving, a target that is registered and has not been stopped since is probed as it was last added,
   beside whatever chains of earlier versions there may be.
   */
  lemma {:induction false} CurrentChainSurvives(actions: seq<P.Action>, id: string)
    requires id in P.Exec(actions).targets && !P.StoppedSinceAdd(actions, id)
    ensures HasCurrentChain(P.Exec(actions), id)
  {
    if actions != [] {
      var s, a := P.Exec(Front(actions)), Last(actions);
      if a.Add? && a.target.id == id {
        assert CarriesCurrent(P.Exec(actions), id, s.next);
      } else {
        hide HasCurrentChain;
        P.ExecWellFormed(Front(actions));
        CurrentChainSurvives(Front(actions), id);
        CurrentChainStays(s, a, id);
      }
    }
  }

  lemma CurrentChainStays(s: P.State, a: P.Action, id: string)
    requires P.WellFormed(s) && HasCurrentChain(s, id) && Undisturbed(a, id)
    ensures HasCurrentChain(P.Next(s, a), id)
  {
    hide P.Next;
    var h :| CarriesCurrent(s, id, h);
    var t := s.targets[id];
    var ph := if h in s.armed then Waiting(h, s.armed[h].deadline) else Flying(h, s.running[h].started);
    PhaseStep(s, t, ph, a);
    TargetStays(s, a, id);
    assert CarriesCurrent(P.Next(s, a), id, PhaseAfter(s, t, ph, a).h);
  }

  lemma TargetStays(s: P.State, a: P.Action, id: string)
    requires Undisturbed(a, id) && id in s.targets
    ensures id in P.Next(s, a).targets && P.Next(s, a).targets[id] == s.targets[id]
  {
    hide P.Due, P.RescheduleDelay, P.Interval;
  }

  /**
   At the end of any run in which the target has not been stopped since it was last added, one of its chains is in a
   phase, with the target as it stands, and not further from its next probe than the longest wait. It is the only chain
   if the target was only added while idle.
   */
  lemma PhaseOfRun(actions: seq<P.Action>, id: string, now: Time) returns (t: Target, ph: Phase)
    requires id in P.Exec(actions).targets && !P.StoppedSinceAdd(actions, id)
    requires forall i | 0 <= i < |actions| :: HappensBy(actions[i], now)
    ensures t == P.Exec(actions).targets[id] && t.id == id && InPhase(P.Exec(actions), t, ph)
    ensures match ph
            case Waiting(_, deadline) => deadline <= now + LongestWait(t)
            case Flying(_, started) => started <= now
    ensures P.OverlappingAdds(actions, id) == 0 ==> P.Chains(P.Exec(actions), id) == {ph.h}
  {
    var s := P.Exec(actions);
    t := s.targets[id];
    P.ExecWellFormed(actions);
    CurrentChainSurvives(actions, id);
    RunKeepsTimersNear(actions, now);
    var h :| CarriesCurrent(s, id, h);
    if h in s.armed {
      ph := Waiting(h, s.armed[h].deadline);
    } else {
      ph := Flying(h, s.running[h].started);
    }
    ChainsAre(s, id);
    assert IsChain(s, id, h);
    if P.OverlappingAdds(actions, id) == 0 {
      P.ExactlyOneChain(actions, id);
      Singleton(P.Chains(s, id), h);
    }
  }

  lemma Singleton<T>(a: set<T>, x: T)
    requires x in a && |a| == 1
    ensures a == {x}
  {
    assert |a - {x}| == 0;
  }

  // ---- playing on -------------------------------------------------------------------------------

  function PhaseAlong(m: Monitor, t: Target, ph: Phase, beats: seq<Beat>): Phase {
    if beats == [] then ph
    else PhaseAfter(Play(m, t, Front(beats)).sched, t, PhaseAlong(m, t, ph, Front(beats)), Last(beats).action)
  }

  /**
   A beat on time that leaves the target registered; if it brings a result, that result lies outside maintenance, and it
   is a failure in case its probe started at or after the instant since.
   */
  ghost predicate Legal(m: Monitor, t: Target, b: Beat, maxProbe: int, since: Time) {
    && Undisturbed(b.action, t.id) && Timely(m, t.id, b, maxProbe)
    && (Lands(m, t.id, b) ==>
          && Runs.OutsideWindow(t, b.result.timestamp)
          && (since <= m.sched.running[b.action.h].started ==> !b.result.success))
  }

  ghost predicate LegalPlay(m: Monitor, t: Target, beats: seq<Beat>, maxProbe: int, since: Time) {
    beats == [] ||
    (LegalPlay(m, t, Front(beats), maxProbe, since) && Legal(Play(m, t, Front(beats)), t, Last(beats), maxProbe, since))
  }

  /** What is legal for the target is on time for the chain. */
  lemma LegalInPhase(m: Monitor, t: Target, ph: Phase, b: Beat, maxProbe: int, since: Time)
    requires InPhase(m.sched, t, ph) && Legal(m, t, b, maxProbe, since)
    ensures m.now <= b.at
    ensures ph.Flying? && b.action.Finish? && b.action.h == ph.h ==> Lands(m, t.id, b)
    ensures Lands(m, t.id, b) ==> b.action.now == b.at && b.action.success == b.result.success
    ensures match ph
            case Waiting(h, deadline) =>
              b.at <= deadline && (b.action.Fire? && b.action.h == h ==> b.at == deadline == b.action.now)
            case Flying(h, started) =>
              && b.at <= started + maxProbe
              && (b.action.Finish? && b.action.h == h && since <= started ==> !b.result.success)
  {
    hide P.Due, P.RescheduleDelay, P.Interval, P.Next;
    match ph
    case Waiting(h, _) => assert h in P.Pending(m.sched, t.id);
    case Flying(h, _) => assert h in P.InFlight(m.sched, t.id);
  }

  /** A probe of the target that was started before the instant since has not come back yet. */
  ghost predicate Stale(s: P.State, id: string, since: Time) {
    exists h :: h in P.InFlight(s, id) && s.running[h].started < since
  }

  /** Such probes grow no more in number, are over soon after since, and are the only ones that can succeed. */
  lemma StaleFades(m: Monitor, t: Target, b: Beat, maxProbe: int, since: Time)
    requires Legal(m, t, b, maxProbe, since) && since <= m.now
    ensures Stale(P.Next(m.sched, b.action), t.id, since) ==> Stale(m.sched, t.id, since)
    ensures Stale(m.sched, t.id, since) ==> b.at < since + maxProbe
    ensures Lands(m, t.id, b) && b.result.success ==> Stale(m.sched, t.id, since)
  {
    hide P.Due, P.RescheduleDelay, P.Interval;
    if Stale(P.Next(m.sched, b.action), t.id, since) {
      var h :| h in P.InFlight(P.Next(m.sched, b.action), t.id) && P.Next(m.sched, b.action).running[h].started < since;
      assert b.action.Fire? && b.action.h == h && h in m.sched.armed ==> h in P.Pending(m.sched, t.id);
      assert h in P.InFlight(m.sched, t.id) && m.sched.running[h].started < since;
    }
  }

  lemma StaysPunctual(m: Monitor, t: Target, b: Beat, maxProbe: int, since: Time)
    requires Legal(m, t, b, maxProbe, since) && maxProbe >= 0
    ensures NothingOverdue(P.Next(m.sched, b.action), t.id, b.at, maxProbe)
  {
    hide P.RescheduleDelay, P.Interval;
    var s' := P.Next(m.sched, b.action);
    forall h | h in P.Pending(s', t.id) ensures b.at <= s'.armed[h].deadline {
      assert h in P.Pending(m.sched, t.id) || Lands(m, t.id, b);
    }
    forall h | h in P.InFlight(s', t.id) ensures b.at <= s'.running[h].started + maxProbe {
      assert h in P.InFlight(m.sched, t.id) || h in P.Pending(m.sched, t.id);
    }
  }

  /** The latest start of a probe that finds n failures behind it. */
  function LatestStart(n: nat, t: Target, maxProbe: int, since: Time): Time {
    since + maxProbe + LongestWait(t) + n * (RetryWait(t) + maxProbe)
  }

  lemma LatestStartGrows(n: nat, k: nat, t: Target, maxProbe: int, since: Time)
    requires maxProbe >= 0
    ensures LatestStart(n + 1, t, maxProbe, since) == LatestStart(n, t, maxProbe, since) + RetryWait(t) + maxProbe
    ensures since + maxProbe + LongestWait(t) <= LatestStart(n, t, maxProbe, since)
    ensures n <= k ==> LatestStart(n, t, maxProbe, since) <= LatestStart(k, t, maxProbe, since)
  {
    var step := RetryWait(t) + maxProbe;
    assert (n + 1) * step == n * step + step;
    assert n * step >= 0;
    if n <= k {
      assert k * step == n * step + (k - n) * step;
      assert (k - n) * step >= 0;
    }
  }

  /**
   The failures in a row that count toward detection: none as long as a success may still come in from a probe started
   before since, and from then on all of them, whichever chains they come from.
   */
  ghost function Counted(cfg: M.Config, m: Monitor, t: Target, since: Time): nat {
    if Stale(m.sched, t.id, since) then 0 else Hysteresis.Fails(cfg, m.calls)
  }

  ghost predicate OnTrack(cfg: M.Config, m: Monitor, t: Target, ph: Phase, maxProbe: int, since: Time) {
    && InPhase(m.sched, t, ph) && NothingOverdue(m.sched, t.id, m.now, maxProbe)
    && since <= m.now
    && match ph
       case Waiting(_, deadline) => m.now <= deadline <= LatestStart(Counted(cfg, m, t, since), t, maxProbe, since)
       case Flying(_, started) =>
         && m.now <= started + maxProbe
         && (started < since || started <= LatestStart(Counted(cfg, m, t, since), t, maxProbe, since))
  }

  /** Unless a beat brings a success, which only a stale probe can, it takes nothing off the count. */
  lemma CountedGrows(cfg: M.Config, m: Monitor, t: Target, b: Beat, maxProbe: int, since: Time)
    requires Legal(m, t, b, maxProbe, since) && since <= m.now
    ensures var before, after := Counted(cfg, m, t, since), Counted(cfg, Step(m, t, b), t, since);
            && before <= after
            && (Lands(m, t.id, b) && !Stale(m.sched, t.id, since) ==> after == before + 1)
  {
    hide Legal, Stale, P.Next, P.InFlight, Hysteresis.Fails;
    StaleFades(m, t, b, maxProbe, since);
    if Lands(m, t.id, b) {
      var call := M.Probe(b.result, t, b.at);
      Snoc(m.calls, call);
      Hysteresis.CountersAfterLast(cfg, m.calls + [call]);
    }
  }

  lemma StaysOnTrack(cfg: M.Config, m: Monitor, t: Target, ph: Phase, b: Beat, maxProbe: int, since: Time)
    requires maxProbe >= 0
    requires OnTrack(cfg, m, t, ph, maxProbe, since) && Legal(m, t, b, maxProbe, since)
    ensures OnTrack(cfg, Step(m, t, b), t, PhaseAfter(m.sched, t, ph, b.action), maxProbe, since)
  {
    hide InPhase, Legal, LatestStart, LongestWait, RetryWait, NothingOverdue, Stale, Lands, Counted, P.Due,
      P.RescheduleDelay, P.Interval, P.Next, P.InFlight, P.Chains;
    PhaseStep(m.sched, t, ph, b.action) by {
      UndisturbedByLegal(m, t, b, maxProbe, since);
    }
    LegalInPhase(m, t, ph, b, maxProbe, since);
    StaysPunctual(m, t, b, maxProbe, since);
    StaleFades(m, t, b, maxProbe, since);
    CountedGrows(cfg, m, t, b, maxProbe, since);
    var k, k' := Counted(cfg, m, t, since), Counted(cfg, Step(m, t, b), t, since);
    LatestStartGrows(k, k', t, maxProbe, since);
    LatestStartGrows(k', k', t, maxProbe, since);
    Waits(t, b.result.success, b.at);
  }

  lemma UndisturbedByLegal(m: Monitor, t: Target, b: Beat, maxProbe: int, since: Time)
    requires Legal(m, t, b, maxProbe, since)
    ensures Undisturbed(b.action, t.id)
  {
  }

  lemma {:induction false} PlayStaysOnTrack(
      cfg: M.Config, m: Monitor, t: Target, ph: Phase, beats: seq<Beat>, maxProbe: int, since: Time, d: int, r: int)
    requires maxProbe >= 0
    requires OnTrack(cfg, m, t, ph, maxProbe, since) && LegalPlay(m, t, beats, maxProbe, since)
    requires Hysteresis.FixedThresholds(cfg, m.calls, d, r)
    requires Hysteresis.ThresholdsOf(cfg, t, d, r)
    requires Runs.StatusOf(cfg, m.calls) in {Up, Degraded, Down, Flapping}
    ensures OnTrack(cfg, Play(m, t, beats), t, PhaseAlong(m, t, ph, beats), maxProbe, since)
    ensures Hysteresis.FixedThresholds(cfg, Play(m, t, beats).calls, d, r)
    ensures Runs.StatusOf(cfg, Play(m, t, beats).calls) in {Up, Degraded, Down, Flapping}
  {
    if beats != [] {
      hide OnTrack, Timely, P.Next, P.InFlight, Runs.After;
      PlayStaysOnTrack(cfg, m, t, ph, Front(beats), maxProbe, since, d, r);
      var before, b := Play(m, t, Front(beats)), Last(beats);
      StaysOnTrack(cfg, before, t, PhaseAlong(m, t, ph, Front(beats)), b, maxProbe, since);
      if Lands(before, t.id, b) {
        StaysKnown(cfg, before.calls, M.Probe(b.result, t, b.at), d, r);
      }
    }
  }

  lemma StaysKnown(cfg: M.Config, calls: seq<M.Call>, call: M.Call, d: int, r: int)
    requires call.Probe? && Runs.OutsideWindow(call.target, call.result.timestamp)
    requires Hysteresis.FixedThresholds(cfg, calls, d, r)
    requires Hysteresis.ThresholdsOf(cfg, call.target, d, r)
    requires Runs.StatusOf(cfg, calls) in {Up, Degraded, Down, Flapping}
    ensures Hysteresis.FixedThresholds(cfg, calls + [call], d, r)
    ensures Runs.StatusOf(cfg, calls + [call]) in {Up, Degraded, Down, Flapping}
  {
    hide Runs.After;
    Snoc(calls, call);
    Hysteresis.AwakeDerives(cfg, calls + [call]);
  }

  /** Two probe durations, one longest wait, and d - 1 rounds of retrying and probing after since. */
  function DetectionTime(t: Target, maxProbe: int, d: int, since: Time): Time {
    since + 2 * maxProbe + LongestWait(t) + (d - 1) * (RetryWait(t) + maxProbe)
  }

  /** The target's calls so far have gone by fixed thresholds, which are still its own, and left it in service. */
  ghost predicate InService(cfg: M.Config, calls: seq<M.Call>, t: Target, d: int, r: int) {
    && d >= 1 && r >= 1
    && Hysteresis.ThresholdsOf(cfg, t, d, r)
    && Hysteresis.FixedThresholds(cfg, calls, d, r)
    && Runs.StatusOf(cfg, calls) in {Up, Degraded, Down, Flapping}
  }

  /** From any state in which one chain of the target is on time on, whatever other chains there are. */
  lemma DetectionFromPhase(
      cfg: M.Config, m: Monitor, t: Target, ph: Phase, beats: seq<Beat>, maxProbe: int, d: int, r: int)
    requires maxProbe >= 0 && InService(cfg, m.calls, t, d, r)
    requires InPhase(m.sched, t, ph) && NothingOverdue(m.sched, t.id, m.now, maxProbe)
    requires match ph
             case Waiting(_, deadline) => deadline <= m.now + LongestWait(t)
             case Flying(_, started) => started <= m.now
    requires LegalPlay(m, t, beats, maxProbe, m.now)
    requires Play(m, t, beats).now > DetectionTime(t, maxProbe, d, m.now)
    ensures Runs.StatusOf(cfg, Play(m, t, beats).calls) in {Down, Flapping}
  {
    hide InPhase, LegalPlay, Hysteresis.FixedThresholds, Runs.StatusOf, LongestWait, RetryWait, Play, PhaseAlong,
      Hysteresis.Fails;
    var end := Play(m, t, beats);
    var n := Hysteresis.Fails(cfg, end.calls);
    PhaseIsTimely(m.sched, t, ph, m.now, maxProbe);
    Waits(t, true, m.now);
    LatestStartGrows(Counted(cfg, m, t, m.now), d, t, maxProbe, m.now);
    PlayStaysOnTrack(cfg, m, t, ph, beats, maxProbe, m.now, d, r);
    Hysteresis.ThresholdsSeparate(cfg, end.calls, d, r);
    assert LatestStart(d - 1, t, maxProbe, m.now) + maxProbe < end.now;
    LatestStartGrows(d - 1, d, t, maxProbe, m.now);
    assert !Stale(end.sched, t.id, m.now);
    if n < d {
      LatestStartGrows(n, d - 1, t, maxProbe, m.now);
      assert false;
    }
  }

  /**
   The scheduler and the state machine from the start: after any run of the scheduler in which the target has not been
   stopped since it was last added, whatever chains of it there are, if the target is in service and all its probes fail
   from now on, it is DOWN or FLAPPING at any time after the detection time, whatever else the scheduler does in
   between.
   */
  lemma DetectionBound(
      cfg: M.Config, actions: seq<P.Action>, calls: seq<M.Call>, id: string, now: Time,
      beats: seq<Beat>, maxProbe: int, d: int, r: int)
    requires id in P.Exec(actions).targets && !P.StoppedSinceAdd(actions, id)
    requires forall i | 0 <= i < |actions| :: HappensBy(actions[i], now)
    requires maxProbe >= 0 && NothingOverdue(P.Exec(actions), id, now, maxProbe)
    requires InService(cfg, calls, P.Exec(actions).targets[id], d, r)
    requires LegalPlay(Monitor(P.Exec(actions), calls, now), P.Exec(actions).targets[id], beats, maxProbe, now)
    requires Play(Monitor(P.Exec(actions), calls, now), P.Exec(actions).targets[id], beats).now >
             DetectionTime(P.Exec(actions).targets[id], maxProbe, d, now)
    ensures var end := Play(Monitor(P.Exec(actions), calls, now), P.Exec(actions).targets[id], beats);
            Runs.StatusOf(cfg, end.calls) in {Down, Flapping}
  {
    hide P.Exec, P.OverlappingAdds, P.StoppedSinceAdd, InService, LegalPlay, Play, DetectionTime, Runs.StatusOf,
      NothingOverdue;
    var t, ph := PhaseOfRun(actions, id, now);
    DetectionFromPhase(cfg, Monitor(P.Exec(actions), calls, now), t, ph, beats, maxProbe, d, r);
  }

  lemma PhaseIsTimely(s: P.State, t: Target, ph: Phase, now: Time, maxProbe: int)
    requires InPhase(s, t, ph) && NothingOverdue(s, t.id, now, maxProbe)
    ensures match ph
            case Waiting(_, deadline) => now <= deadline
            case Flying(_, started) => now <= started + maxProbe
  {
    match ph
    case Waiting(h, _) => assert h in P.Pending(s, t.id);
    case Flying(h, _) => assert h in P.InFlight(s, t.id);
  }
}
