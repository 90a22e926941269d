/** internal/probe/probe.go: the scheduler, with the part of Go's timer runtime that it relies on. */
module Scheduling {
  import opened Model
  import opened Sequences
  import P = TimerProtocol

  class Scheduler {
    // The scheduler's own fields.
    var targets: map<string, Target>
    var timers: map<string, nat>

    // What the runtime holds on its behalf: pending timers, and probes in flight.
    var armed: map<nat, P.Timer>
    var running: map<nat, P.Flight>
    var next: nat

    /** Everything that has happened to this scheduler, oldest first. */
    ghost var actions: seq<P.Action>

    ghost predicate Valid()
      reads this
    {
      IsExec(actions, State())
    }

    ghost function State(): P.State
      reads this`targets, this`timers, this`armed, this`running, this`next
    {
      P.State(targets, timers, armed, running, next)
    }

    constructor ()
      ensures Valid() && actions == [] && State() == P.INITIAL
    {
      targets, timers, armed, running, next := map[], map[], map[], map[], 0;
      actions := [];
    }

    /** time.AfterFunc */
    method AfterFunc(target: Target, delay: int, now: Time) returns (h: nat)
      modifies this`armed, this`next
      ensures h == old(next) && next == old(next) + 1
      ensures armed == old(armed)[h := P.Timer(target, P.Due(now, delay))]
    {
      h := next;
      armed := armed[h := P.Timer(target, if delay <= 0 then now else now + delay)];
      next := next + 1;
    }

    /** Timer.Stop: a timer that has expired already is beyond recall. */
    method StopTimer(h: nat)
      modifies this`armed
      ensures armed == old(armed) - {h}
    {
      armed := armed - {h};
    }

    method Add(t: Target, now: Time)
      requires Valid()
      modifies this
      ensures actions == old(actions) + [P.Add(t, now)]
      ensures State() == P.Next(old(State()), P.Add(t, now))
      ensures Valid()
    {
      hide IsExec;
      NoteAction(P.Add(t, now));
      if t.id in timers {
        StopTimer(timers[t.id]);
      }
      targets := targets[t.id := t];
      var h := AfterFunc(t, P.Interval(t), now);
      timers := timers[t.id := h];
    }

    method Remove(id: string)
      requires Valid()
      modifies this
      ensures actions == old(actions) + [P.Remove(id)]
      ensures State() == P.Next(old(State()), P.Remove(id))
      ensures Valid()
    {
      hide IsExec;
      NoteAction(P.Remove(id));
      if id in timers {
        StopTimer(timers[id]);
        timers := timers - {id};
      }
      assert timers == old(timers) - {id};
      targets := targets - {id};
    }

    method Stop()
      requires Valid()
      modifies this
      ensures actions == old(actions) + [P.Stop]
      ensures State() == P.Next(old(State()), P.Stop)
      ensures Valid()
    {
      hide IsExec;
      NoteAction(P.Stop);
      ghost var before := State();
      var rest := timers.Keys;
      while rest != {}
        invariant rest <= timers.Keys
        invariant State() == before.(armed := armed) && actions == old(actions) + [P.Stop]
        invariant armed.Keys <= before.armed.Keys && forall h | h in armed :: armed[h] == before.armed[h]
        invariant forall h | h in before.armed ::
                    h in armed <==> forall id | id in timers.Keys - rest :: timers[id] != h
      {
        var id :| id in rest;
        StopTimer(timers[id]);
        rest := rest - {id};
      }
      assert armed == before.armed - timers.Values;
    }

    /** The runtime's part: a pending timer expires, and its probe takes off. */
    method Expire(h: nat, now: Time)
      requires Valid()
      requires h in armed
      modifies this
      ensures actions == old(actions) + [P.Fire(h, now)]
      ensures State() == P.Next(old(State()), P.Fire(h, now))
      ensures Valid()
    {
      hide IsExec;
      NoteAction(P.Fire(h, now));
      running := running[h := P.Flight(armed[h].target, now)];
      armed := armed - {h};
    }

    /** The end of runOnce: a probe comes back, and the next one is scheduled unless the target has been removed. */
    method Complete(h: nat, success: bool, now: Time)
      requires Valid()
      requires h in running
      modifies this
      ensures actions == old(actions) + [P.Finish(h, success, now)]
      ensures State() == P.Next(old(State()), P.Finish(h, success, now))
      ensures Valid()
    {
      hide IsExec;
      NoteAction(P.Finish(h, success, now));
      var t := running[h].target;
      running := running - {h};
      Reschedule(t, success, now);
    }

    method Reschedule(t: Target, success: bool, now: Time)
      modifies this`timers, this`armed, this`next
      ensures State() ==
              if t.id in targets then P.Arm(old(State()), t, P.Due(now, P.RescheduleDelay(t, success)))
              else old(State())
    {
      var interval := P.Interval(t);
      if !success {
        var faster := TruncDiv(interval, 2);
        if faster < P.FASTEST_RETRY {
          faster := P.FASTEST_RETRY;
        }
        interval := faster;
      }
      if t.id !in targets {
        return;
      }
      var h := AfterFunc(t, interval, now);
      timers := timers[t.id := h];
    }

    ghost method NoteAction(a: P.Action)
      requires Valid()
      modifies this`actions
      ensures actions == old(actions) + [a]
      ensures IsExec(actions, P.Next(State(), a))
    {
      Snoc(actions, a);
      actions := actions + [a];
    }
  }

  ghost predicate IsExec(actions: seq<P.Action>, s: P.State) {
    s == P.Exec(actions)
  }
}
