/**
 The timer protocol of internal/probe/probe.go as a step system. Add, Remove, Stop and the rescheduling at the end of a
 probe run under the scheduler's lock, so each is one step; a timer that expires and a probe that completes are steps of
 their own, which may come in any order and at any time.
 */
module TimerProtocol {
  import opened Model
  import opened Sequences

  /** A pending one-shot timer: what it will probe, and when. */
  datatype Timer = Timer(target: Target, deadline: Time)

  /** A probe in flight, started by an expired timer. It can no longer be recalled. */
  datatype Flight = Flight(target: Target, started: Time)

  /** Timers and the flights they turn into are known by the number under which the timer was made. */
  datatype State = State(
    targets: map<string, Target>,
    timers: map<string, nat>,
    armed: map<nat, Timer>,
    running: map<nat, Flight>,
    next: nat)

  datatype Action =
    | Add(target: Target, now: Time)
    | Remove(id: string)
    | Stop
    | Fire(h: nat, now: Time)
    | Finish(h: nat, success: bool, now: Time)

  const FASTEST_RETRY: int := 5 * NANOS_PER_SECOND

  function Interval(target: Target): int {
    target.intervalSec * NANOS_PER_SECOND
  }

  /** After a failure the next probe comes sooner: after half the interval, but no sooner than five seconds. */
  function RescheduleDelay(target: Target, success: bool): int {
    if success then Interval(target)
    else
      var faster := TruncDiv(Interval(target), 2);
      if faster < FASTEST_RETRY then FASTEST_RETRY else faster
  }

  /** When a timer set for a delay expires: at once, if the delay is not positive. */
  function Due(now: Time, delay: int): Time {
    if delay <= 0 then now else now + delay
  }

  const INITIAL: State := State(map[], map[], map[], map[], 0)

  /** Registers a new timer for the target, in place of whatever handle was registered before. */
  function Arm(s: State, target: Target, deadline: Time): State {
    s.(timers := s.timers[target.id := s.next], armed := s.armed[s.next := Timer(target, deadline)], next := s.next + 1)
  }

  /** Stops the registered timer of a target, if it is still pending. */
  function Disarm(s: State, id: string): State {
    if id in s.timers then s.(armed := s.armed - {s.timers[id]}) else s
  }

  /** A step that is not possible in a state leaves it as it is. */
  function Next(s: State, a: Action): State {
    match a
    case Add(target, now) =>
      Arm(Disarm(s, target.id).(targets := s.targets[target.id := target]), target, Due(now, Interval(target)))
    case Remove(id) =>
      Disarm(s, id).(timers := s.timers - {id}, targets := s.targets - {id})
    case Stop => s.(armed := s.armed - s.timers.Values)
    case Fire(h, now) =>
      if h !in s.armed then s
      else s.(armed := s.armed - {h}, running := s.running[h := Flight(s.armed[h].target, now)])
    case Finish(h, success, now) =>
      if h !in s.running then s
      else
        var target := s.running[h].target;
        var landed := s.(running := s.running - {h});
        if target.id in s.targets then Arm(landed, target, Due(now, RescheduleDelay(target, success))) else landed
  }

  function Exec(actions: seq<Action>): State {
    if actions == [] then INITIAL else Next(Exec(Front(actions)), Last(actions))
  }

  // ---- invariants -------------------------------------------------------------------------------

  ghost predicate WellFormed(s: State) {
    && s.timers.Keys == s.targets.Keys
    && (forall id | id in s.targets :: s.targets[id].id == id)
    && (forall h | h in s.armed :: h < s.next && h !in s.running)
    && (forall h | h in s.running :: h < s.next)
    && (forall id | id in s.timers :: s.timers[id] < s.next)
    && (forall id | id in s.timers && s.timers[id] in s.armed :: s.armed[s.timers[id]].target.id == id)
  }

  lemma NextWellFormed(s: State, a: Action)
    requires WellFormed(s)
    ensures WellFormed(Next(s, a))
  {
    hide WellFormed, Next;
    match a
    case Add(target, now) => AddWellFormed(s, target, now);
    case Remove(id) => RemoveWellFormed(s, id);
    case Finish(h, success, now) => FinishWellFormed(s, h, success, now);
    case Stop => OtherWellFormed(s, a);
    case Fire(_, _) => OtherWellFormed(s, a);
  }

  lemma AddWellFormed(s: State, target: Target, now: Time)
    requires WellFormed(s)
    ensures WellFormed(Next(s, Add(target, now)))
  {
    hide Due, Interval;
  }

  lemma RemoveWellFormed(s: State, id: string)
    requires WellFormed(s)
    ensures WellFormed(Next(s, Remove(id)))
  {
  }

  lemma FinishWellFormed(s: State, h: nat, success: bool, now: Time)
    requires WellFormed(s)
    ensures WellFormed(Next(s, Finish(h, success, now)))
  {
    hide Due, RescheduleDelay;
  }

  lemma OtherWellFormed(s: State, a: Action)
    requires WellFormed(s) && (a.Stop? || a.Fire?)
    ensures WellFormed(Next(s, a))
  {
  }

  lemma {:induction false} ExecWellFormed(actions: seq<Action>)
    ensures WellFormed(Exec(actions))
  {
    if actions != [] {
      ExecWellFormed(Front(actions));
      NextWellFormed(Exec(Front(actions)), Last(actions));
    }
  }

  // ---- chains -----------------------------------------------------------------------------------

  function Pending(s: State, id: string): set<nat> {
    set h | h in s.armed && s.armed[h].target.id == id
  }

  function InFlight(s: State, id: string): set<nat> {
    set h | h in s.running && s.running[h].target.id == id
  }

  /** The probing chains of a target: each is either waiting for its timer or in flight. */
  function Chains(s: State, id: string): set<nat> {
    Pending(s, id) + InFlight(s, id)
  }

  /** The target's pending timer that the scheduler still knows of, as a set of at most one. */
  function Registered(s: State, id: string): set<nat> {
    if id in s.timers && s.timers[id] in s.armed then {s.timers[id]} else {}
  }

  /** The chains of a target that neither Add, Remove nor Stop can reach. */
  function Unreachable(s: State, id: string): set<nat> {
    Chains(s, id) - Registered(s, id)
  }

  /** The number of times a target was added while one of its probes was in flight. */
  function OverlappingAdds(actions: seq<Action>, id: string): nat {
    if actions == [] then 0
    else
      OverlappingAdds(Front(actions), id)
      + if Last(actions).Add? && Last(actions).target.id == id && InFlight(Exec(Front(actions)), id) != {} then 1 else 0
  }

  // What each step does to the unreachable chains of a target.

  lemma AddReaches(s: State, target: Target, now: Time, id: string)
    requires WellFormed(s)
    ensures var s' := Next(s, Add(target, now));
            && Unreachable(s', id) == Unreachable(s, id)
            && InFlight(s', id) == InFlight(s, id)
            && (target.id == id ==> Registered(s', id) != {})
            && (target.id != id ==> Registered(s', id) == Registered(s, id))
  {
    hide Due, Interval;
  }

  lemma RemoveReaches(s: State, other: string, id: string)
    requires WellFormed(s)
    ensures var s' := Next(s, Remove(other));
            && Unreachable(s', id) == Unreachable(s, id)
            && InFlight(s', id) == InFlight(s, id)
            && Registered(s', id) <= Registered(s, id)
            && (other != id ==> Registered(s', id) == Registered(s, id))
  {
  }

  lemma StopReaches(s: State, id: string)
    requires WellFormed(s)
    ensures var s' := Next(s, Stop);
            && Unreachable(s', id) == Unreachable(s, id)
            && InFlight(s', id) == InFlight(s, id)
            && Registered(s', id) == {}
  {
  }

  lemma FireMoves(s: State, h: nat, now: Time, id: string)
    requires WellFormed(s) && h in s.armed
    ensures var s' := Next(s, Fire(h, now));
            && InFlight(s', id) == InFlight(s, id) + (Pending(s, id) * {h})
            && Registered(s', id) == Registered(s, id) - {h}
            && Unreachable(s', id) == Unreachable(s, id) + (Registered(s, id) * {h})
  {
  }

  lemma FinishMoves(s: State, h: nat, success: bool, now: Time, id: string)
    requires WellFormed(s) && h in s.running
    ensures var s' := Next(s, Finish(h, success, now));
            if s.running[h].target.id != id then
              Unreachable(s', id) == Unreachable(s, id) && InFlight(s', id) == InFlight(s, id)
              && Registered(s', id) == Registered(s, id)
            else if id in s.targets then
              Unreachable(s', id) == Unreachable(s, id) - {h} + Registered(s, id) && Registered(s', id) != {}
            else
              Unreachable(s', id) == Unreachable(s, id) - {h} && Registered(s', id) == {}
  {
    hide Due, RescheduleDelay;
  }

  /** Only overlapping Adds make chains unreachable; a chain is also out of reach while its own probe is in flight. */
  ghost predicate Bounded(s: State, id: string, overlapping: nat) {
    |Unreachable(s, id)| <= overlapping + if Registered(s, id) == {} && InFlight(s, id) != {} then 1 else 0
  }

  lemma InFlightIsUnreachable(s: State, id: string, h: nat)
    requires WellFormed(s) && h in InFlight(s, id)
    ensures h in Unreachable(s, id)
    ensures h !in Registered(s, id)
  {
  }

  lemma RegisteredIsOne(s: State, id: string)
    requires WellFormed(s)
    ensures |Registered(s, id)| <= 1 && (forall h | h in Registered(s, id) :: Registered(s, id) == {h})
    ensures Registered(s, id) <= Pending(s, id)
    ensures Chains(s, id) == Unreachable(s, id) + Registered(s, id)
    ensures Registered(s, id) !! Unreachable(s, id)
  {
  }

  lemma UnionSize<T>(a: set<T>, b: set<T>)
    ensures |a + b| <= |a| + |b|
    ensures a !! b ==> |a + b| == |a| + |b|
  {
    if a !! b {
    } else {
      assert a + b == a + (b - a);
      assert b - a <= b;
      SubsetSize(b - a, b);
    }
  }

  lemma {:induction false} SubsetSize<T>(a: set<T>, b: set<T>)
    requires a <= b
    ensures |a| <= |b|
  {
    if a != {} {
      var x :| x in a;
      SubsetSize(a - {x}, b - {x});
    }
  }

  lemma BoundedNext(s: State, a: Action, id: string, overlapping: nat)
    requires WellFormed(s) && Bounded(s, id, overlapping)
    ensures Bounded(Next(s, a), id,
                    overlapping + if a.Add? && a.target.id == id && InFlight(s, id) != {} then 1 else 0)
  {
    hide Unreachable, Registered, InFlight, Pending, WellFormed, Next;
    match a
    case Add(target, now) => AddReaches(s, target, now, id);
    case Remove(other) => RemoveReaches(s, other, id);
    case Stop => StopReaches(s, id);
    case Fire(h, now) => BoundedFire(s, h, now, id, overlapping);
    case Finish(h, success, now) => BoundedFinish(s, h, success, now, id, overlapping);
  }

  lemma BoundedFire(s: State, h: nat, now: Time, id: string, overlapping: nat)
    requires WellFormed(s) && Bounded(s, id, overlapping)
    ensures Bounded(Next(s, Fire(h, now)), id, overlapping)
  {
    if h in s.armed {
      FireCounts(s, h, now, id, overlapping);
    }
  }

  lemma FireCounts(s: State, h: nat, now: Time, id: string, overlapping: nat)
    requires WellFormed(s) && Bounded(s, id, overlapping) && h in s.armed
    ensures Bounded(Next(s, Fire(h, now)), id, overlapping)
  {
    hide Unreachable, Registered, InFlight, Pending, WellFormed, Next;
    FireMoves(s, h, now, id);
    RegisteredIsOne(s, id);
    UnionSize(Unreachable(s, id), {h});
    if h in Registered(s, id) {
      assert Registered(s, id) * {h} == {h};
      assert h in Pending(s, id) * {h};
    } else {
      assert Registered(s, id) * {h} == {};
      assert Registered(s, id) - {h} == Registered(s, id);
    }
  }

  lemma BoundedFinish(s: State, h: nat, success: bool, now: Time, id: string, overlapping: nat)
    requires WellFormed(s) && Bounded(s, id, overlapping)
    ensures Bounded(Next(s, Finish(h, success, now)), id, overlapping)
  {
    hide Due, RescheduleDelay, Unreachable;
    if h in s.running {
      FinishMoves(s, h, success, now, id);
      if s.running[h].target.id == id {
        assert h in InFlight(s, id);
        assert id !in s.targets ==> Registered(s, id) == {};
        FinishCounts(s, h, id, overlapping);
      }
    }
  }

  lemma FinishCounts(s: State, h: nat, id: string, overlapping: nat)
    requires WellFormed(s) && Bounded(s, id, overlapping) && h in InFlight(s, id)
    ensures |Unreachable(s, id) - {h} + Registered(s, id)| <= overlapping
    ensures Registered(s, id) == {} ==> |Unreachable(s, id) - {h}| <= overlapping
  {
    hide Unreachable, Registered, InFlight, Pending, WellFormed;
    InFlightIsUnreachable(s, id, h);
    RegisteredIsOne(s, id);
    UnionSize(Unreachable(s, id) - {h}, Registered(s, id));
  }

  lemma {:induction false} ExecBounded(actions: seq<Action>, id: string)
    ensures Bounded(Exec(actions), id, OverlappingAdds(actions, id))
  {
    if actions == [] {
      assert Unreachable(INITIAL, id) == {};
    } else {
      hide Bounded, Next, InFlight;
      ExecWellFormed(Front(actions));
      ExecBounded(Front(actions), id);
      BoundedNext(Exec(Front(actions)), Last(actions), id, OverlappingAdds(Front(actions), id));
    }
  }

  /** In every interleaving, a target has at most one chain more than the number of overlapping Adds of it. */
  lemma ChainsAreBounded(actions: seq<Action>, id: string)
    ensures |Chains(Exec(actions), id)| <= 1 + OverlappingAdds(actions, id)
  {
    var s := Exec(actions);
    hide Unreachable, Registered, InFlight, Pending, Chains, WellFormed;
    ExecWellFormed(actions);
    ExecBounded(actions, id);
    RegisteredIsOne(s, id);
    UnionSize(Unreachable(s, id), Registered(s, id));
  }

  /** Stop has been called since the target was last added. */
  predicate StoppedSinceAdd(actions: seq<Action>, id: string) {
    if actions == [] then false
    else if Last(actions).Stop? then true
    else if Last(actions).Add? && Last(actions).target.id == id then false
    else StoppedSinceAdd(Front(actions), id)
  }

  /** In every interleaving, a target that is registered and has not been stopped since still has a chain. */
  lemma {:induction false} ChainSurvives(actions: seq<Action>, id: string)
    requires id in Exec(actions).targets && !StoppedSinceAdd(actions, id)
    ensures Chains(Exec(actions), id) != {}
  {
    if actions != [] {
      var s, a := Exec(Front(actions)), Last(actions);
      ExecWellFormed(Front(actions));
      if a.Add? && a.target.id == id {
        AddReaches(s, a.target, a.now, id);
        RegisteredIsOne(Exec(actions), id) by {
          ExecWellFormed(actions);
        }
      } else {
        ChainSurvives(Front(actions), id);
        ChainStays(s, a, id);
      }
    }
  }

  lemma ChainStays(s: State, a: Action, id: string)
    requires WellFormed(s) && Chains(s, id) != {} && id in s.targets
    requires !a.Stop? && !(a.Add? && a.target.id == id) && !(a.Remove? && a.id == id)
    ensures Chains(Next(s, a), id) != {}
  {
    var h :| h in Chains(s, id);
    match a
    case Add(_, _) => assert h in Chains(Next(s, a), id);
    case Remove(_) => assert h in Chains(Next(s, a), id);
    case Fire(_, _) => assert h in Chains(Next(s, a), id);
    case Finish(g, _, _) =>
      if g == h && h in s.running {
        assert s.next in Chains(Next(s, a), id);
      } else {
        assert h in Chains(Next(s, a), id);
      }
  }

  /** A target that is only ever added while no probe of it is in flight has exactly one chain. */
  lemma ExactlyOneChain(actions: seq<Action>, id: string)
    requires id in Exec(actions).targets && !StoppedSinceAdd(actions, id) && OverlappingAdds(actions, id) == 0
    ensures |Chains(Exec(actions), id)| == 1
  {
    hide Chains, OverlappingAdds, StoppedSinceAdd, Exec;
    ChainsAreBounded(actions, id);
    ChainSurvives(actions, id);
  }

  // ---- stopping ---------------------------------------------------------------------------------

  function ExecFrom(s: State, actions: seq<Action>): State {
    if actions == [] then s else Next(ExecFrom(s, Front(actions)), Last(actions))
  }

  ghost predicate NoAdds(actions: seq<Action>) {
    forall i | 0 <= i < |actions| :: !actions[i].Add?
  }

  ghost predicate Fires(s: State, actions: seq<Action>) {
    exists n :: 0 <= n < |actions| && actions[n].Fire? && actions[n].h in ExecFrom(s, actions[..n]).armed
  }

  /** Every pending timer is the registered one of some target, and no probe of a registered target is in flight. */
  ghost predicate WithinReach(s: State) {
    && (forall h | h in s.armed :: h in s.timers.Values)
    && (forall h | h in s.running :: s.running[h].target.id !in s.targets)
  }

  ghost predicate Dead(s: State) {
    s.armed == map[] && forall h | h in s.running :: s.running[h].target.id !in s.targets
  }

  lemma {:induction false} DeadStaysDead(s: State, actions: seq<Action>)
    requires Dead(s) && NoAdds(actions)
    ensures Dead(ExecFrom(s, actions))
  {
    if actions != [] {
      assert forall i | 0 <= i < |actions| - 1 :: Front(actions)[i] == actions[i];
      assert !Last(actions).Add?;
      DeadStaysDead(s, Front(actions));
      DeadNext(ExecFrom(s, Front(actions)), Last(actions));
    }
  }

  lemma DeadNext(s: State, a: Action)
    requires Dead(s) && !a.Add?
    ensures Dead(Next(s, a))
  {
  }

  lemma DeadNeverFires(s: State, actions: seq<Action>)
    requires Dead(s) && NoAdds(actions)
    ensures !Fires(s, actions)
  {
    forall n | 0 <= n < |actions| ensures ExecFrom(s, actions[..n]).armed == map[] {
      assert forall i | 0 <= i < n :: actions[..n][i] == actions[i];
      DeadStaysDead(s, actions[..n]);
    }
  }

  /** From a state that is not dead, at most two steps without an Add start a probe. */
  lemma LiveCanFire(s: State) returns (actions: seq<Action>)
    requires !Dead(s)
    ensures NoAdds(actions) && Fires(s, actions)
  {
    if s.armed != map[] {
      assert s.armed.Keys != {};
      var h :| h in s.armed;
      actions := [Fire(h, 0)];
      assert actions[..0] == [];
      assert ExecFrom(s, actions[..0]) == s;
    } else {
      var h :| h in s.running && s.running[h].target.id in s.targets;
      actions := [Finish(h, true, 0), Fire(s.next, 0)];
      assert actions[..1] == [Finish(h, true, 0)];
      var once := [Finish(h, true, 0)];
      assert Front(once) == [] && ExecFrom(s, []) == s;
      assert ExecFrom(s, once) == Next(s, Finish(h, true, 0));
      assert actions[1].h in ExecFrom(s, actions[..1]).armed;
    }
  }

  /** Stop ends all probing until the next Add exactly when everything pending or in flight was within its reach. */
  lemma StopIsFinal(s: State)
    requires WellFormed(s)
    ensures WithinReach(s) <==> forall actions | NoAdds(actions) :: !Fires(Next(s, Stop), actions)
  {
    var s' := Next(s, Stop);
    assert WithinReach(s) <==> Dead(s') by {
      if Dead(s') {
        forall h | h in s.armed ensures h in s.timers.Values {
          assert h !in s'.armed;
        }
      }
    }
    if Dead(s') {
      forall actions | NoAdds(actions) ensures !Fires(s', actions) {
        DeadNeverFires(s', actions);
      }
    } else {
      var actions := LiveCanFire(s');
      assert NoAdds(actions) && Fires(s', actions);
    }
  }

  /** Where no Add has overlapped a flight of its target, a Stop with nothing in flight is final. */
  lemma StopWhenIdleIsFinal(actions: seq<Action>)
    requires forall id :: OverlappingAdds(actions, id) == 0
    requires Exec(actions).running == map[]
    ensures WithinReach(Exec(actions))
  {
    var s := Exec(actions);
    ExecWellFormed(actions);
    forall h | h in s.armed ensures h in s.timers.Values {
      var id := s.armed[h].target.id;
      ExecBounded(actions, id);
      assert InFlight(s, id) == {};
      assert OverlappingAdds(actions, id) == 0;
      assert Unreachable(s, id) == {};
      assert h in Chains(s, id);
    }
  }

  /** Some action among these starts a probe of the target. */
  ghost predicate FiresFor(s: State, actions: seq<Action>, id: string) {
    exists n :: 0 <= n < |actions| && actions[n].Fire? && actions[n].h in Pending(ExecFrom(s, actions[..n]), id)
  }

  ghost predicate NoAddsOf(actions: seq<Action>, id: string) {
    forall i | 0 <= i < |actions| && actions[i].Add? :: actions[i].target.id != id
  }

  ghost predicate Gone(s: State, id: string) {
    Pending(s, id) == {} && id !in s.targets
  }

  lemma GoneNext(s: State, a: Action, id: string)
    requires Gone(s, id) && !(a.Add? && a.target.id == id)
    ensures Gone(Next(s, a), id)
  {
    hide Due, RescheduleDelay, Interval;
    assert forall h | h in s.armed :: s.armed[h].target.id != id by {
      assert forall h | h in s.armed && s.armed[h].target.id == id :: h in Pending(s, id);
    }
  }

  lemma {:induction false} GoneStaysGone(s: State, actions: seq<Action>, id: string)
    requires Gone(s, id) && NoAddsOf(actions, id)
    ensures Gone(ExecFrom(s, actions), id)
  {
    if actions != [] {
      hide Gone, Next;
      assert forall i | 0 <= i < |actions| - 1 :: Front(actions)[i] == actions[i];
      assert Last(actions) == actions[|actions| - 1];
      GoneStaysGone(s, Front(actions), id);
      GoneNext(ExecFrom(s, Front(actions)), Last(actions), id);
    }
  }

  /**
   Remove ends all probing of the target until it is next added exactly when every pending timer of it was the
   registered one; a probe in flight does no harm, since it is not followed by another.
   */
  lemma RemoveIsFinal(s: State, id: string)
    requires WellFormed(s)
    ensures Pending(s, id) <= Registered(s, id) <==>
            forall actions | NoAddsOf(actions, id) :: !FiresFor(Next(s, Remove(id)), actions, id)
  {
    var s' := Next(s, Remove(id));
    RemoveLeaves(s, id);
    if Pending(s, id) <= Registered(s, id) {
      forall actions | NoAddsOf(actions, id) ensures !FiresFor(s', actions, id) {
        forall n | 0 <= n < |actions| ensures Pending(ExecFrom(s', actions[..n]), id) == {} {
          assert forall i | 0 <= i < n :: actions[..n][i] == actions[i];
          GoneStaysGone(s', actions[..n], id);
        }
      }
    } else {
      var h :| h in Pending(s, id) && h !in Registered(s, id);
      assert h in Pending(s', id);
      var actions := [Fire(h, 0)];
      assert actions[..0] == [] && ExecFrom(s', []) == s';
      assert NoAddsOf(actions, id) && FiresFor(s', actions, id);
    }
  }

  lemma RemoveLeaves(s: State, id: string)
    requires WellFormed(s)
    ensures Pending(Next(s, Remove(id)), id) == Pending(s, id) - Registered(s, id)
    ensures id !in Next(s, Remove(id)).targets
  {
  }

  /** Where no Add of the target has overlapped a flight of it, a Remove is final whatever is in flight. */
  lemma RemoveWhenAddedIdleIsFinal(actions: seq<Action>, id: string)
    requires OverlappingAdds(actions, id) == 0
    ensures Pending(Exec(actions), id) <= Registered(Exec(actions), id)
  {
    var s := Exec(actions);
    ExecWellFormed(actions);
    ExecBounded(actions, id);
    if g :| g in InFlight(s, id) {
      InFlightIsUnreachable(s, id, g);
      assert |Unreachable(s, id) - {g}| == 0;
      assert Unreachable(s, id) == {g} && g !in Pending(s, id);
    }
  }

  /**
   Nothing in flight is not enough on its own: a target updated while its probe was in flight ends up with two timers,
   of which the scheduler knows one, and both Stop and Remove leave the other.
   */
  lemma StopAndRemoveCanMissATimer(t: Target) returns (actions: seq<Action>)
    ensures Exec(actions).running == map[] && !WithinReach(Exec(actions))
    ensures !(Pending(Exec(actions), t.id) <= Registered(Exec(actions), t.id))
    ensures OverlappingAdds(actions, t.id) == 1 && |Chains(Exec(actions), t.id)| == 2
  {
    var a0, a1, a2, a3 := Add(t, 0), Fire(0, 0), Add(t, 0), Finish(0, true, 0);
    actions := [a0, a1, a2, a3];
    var s1 := Next(INITIAL, a0);
    var s2 := Next(s1, a1);
    var s3 := Next(s2, a2);
    var s4 := Next(s3, a3);
    assert Front(actions) == [a0, a1, a2] && Front([a0, a1, a2]) == [a0, a1];
    assert Front([a0, a1]) == [a0] && Front([a0]) == [];
    assert Exec([]) == INITIAL && Exec([a0]) == s1 && Exec([a0, a1]) == s2 && Exec([a0, a1, a2]) == s3;
    assert InFlight(INITIAL, t.id) == {} && 0 in InFlight(s2, t.id);
    assert OverlappingAdds([], t.id) == OverlappingAdds([a0], t.id) == OverlappingAdds([a0, a1], t.id) == 0;
    assert OverlappingAdds([a0, a1, a2], t.id) == 1;
    assert Chains(s4, t.id) == {1, 2};
    assert s4.timers.Values == {2} by {
      assert s4.timers == map[t.id := 2];
    }
    assert 1 in s4.armed && 1 in Pending(s4, t.id);
  }
}
