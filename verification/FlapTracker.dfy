/** internal/fsm/flap.go: the tracker that counts status changes per target within a sliding window. */
module FlapTracking {
  import opened Model
  import opened Sequences
  import FlapLog

  class FlapTracker {
    var history: map<string, seq<Time>>
    const window: int

    /** The operations on each target since it was last removed, and the trimming steps they have taken together. */
    ghost var ops: map<string, seq<FlapLog.Op>>
    ghost var steps: map<string, nat>

    ghost predicate Valid()
      reads this
    {
      && history.Keys == ops.Keys == steps.Keys
      && forall id | id in history ::
           FlapLog.IsKept(window, ops[id], history[id]) && FlapLog.IsTrimmed(window, ops[id], steps[id])
    }

    ghost function OpsOf(id: string): seq<FlapLog.Op>
      reads this
    {
      if id in ops then ops[id] else []
    }

    ghost function StepsOf(id: string): nat
      reads this
    {
      if id in steps then steps[id] else 0
    }

    function KeptOf(id: string): seq<Time>
      reads this
    {
      if id in history then history[id] else []
    }

    constructor (window: int)
      ensures Valid() && this.window == window && history == map[] && ops == map[] && steps == map[]
    {
      this.window := window;
      history, ops, steps := map[], map[], map[];
    }

    /** Steps over the leading entries before the cutoff, one loop iteration each. */
    method Trim(ts: seq<Time>, now: Time) returns (kept: seq<Time>, steps: nat)
      ensures kept == FlapLog.DropBefore(ts, now - window)
      ensures steps == |FlapLog.LeadBefore(ts, now - window)|
    {
      var cutoff := now - window;
      var i := 0;
      while i < |ts| && ts[i] < cutoff
        invariant 0 <= i <= |ts|
        invariant FlapLog.DropBefore(ts, cutoff) == FlapLog.DropBefore(ts[i..], cutoff)
        invariant |FlapLog.LeadBefore(ts, cutoff)| == i + |FlapLog.LeadBefore(ts[i..], cutoff)|
      {
        assert ts[i..][1..] == ts[i + 1..];
        i := i + 1;
      }
      return ts[i..], i;
    }

    method Record(id: string, t: Time)
      requires Valid()
      modifies this
      ensures Valid()
      ensures ops == old(ops)[id := old(OpsOf(id)) + [FlapLog.Record(t)]]
      ensures steps == old(steps)[id := old(StepsOf(id)) + |FlapLog.LeadBefore(old(KeptOf(id)), t - window)|]
      ensures history == old(history)[id := FlapLog.DropBefore(old(KeptOf(id)), t - window) + [t]]
      ensures KeptOf(id) == FlapLog.DropBefore(old(KeptOf(id)), t - window) + [t]
      ensures forall other | other != id :: KeptOf(other) == old(KeptOf(other))
    {
      hide FlapLog.IsKept, FlapLog.IsTrimmed, FlapLog.DropBefore, FlapLog.LeadBefore;
      FlapLog.NothingKept(window);
      FlapLog.NothingTrimmed(window);
      FlapLog.OneMoreKept(window, OpsOf(id), KeptOf(id), FlapLog.Record(t));
      FlapLog.OneMoreTrim(window, OpsOf(id), KeptOf(id), StepsOf(id), FlapLog.Record(t));
      var ts, taken := Trim(KeptOf(id), t);
      ops, steps := ops[id := OpsOf(id) + [FlapLog.Record(t)]], steps[id := StepsOf(id) + taken];
      history := history[id := ts + [t]];
    }

    method Count(id: string, now: Time) returns (n: nat)
      requires Valid()
      modifies this
      ensures Valid()
      ensures ops == old(ops)[id := old(OpsOf(id)) + [FlapLog.Count(now)]]
      ensures steps == old(steps)[id := old(StepsOf(id)) + |FlapLog.LeadBefore(old(KeptOf(id)), now - window)|]
      ensures history == old(history)[id := FlapLog.DropBefore(old(KeptOf(id)), now - window)]
      ensures KeptOf(id) == FlapLog.DropBefore(old(KeptOf(id)), now - window) && n == |KeptOf(id)|
      ensures forall other | other != id :: KeptOf(other) == old(KeptOf(other))
      ensures var past := old(OpsOf(id));
              FlapLog.Chronological(past) && (forall i | 0 <= i < |past| :: past[i].at <= now) ==>
                n == CountIn(FlapLog.Logged(past), now - window, now)
    {
      hide FlapLog.IsKept, FlapLog.IsTrimmed, FlapLog.DropBefore, FlapLog.LeadBefore, FlapLog.Logged,
        FlapLog.Chronological, CountIn;
      FlapLog.NothingKept(window);
      FlapLog.NothingTrimmed(window);
      FlapLog.OneMoreKept(window, OpsOf(id), KeptOf(id), FlapLog.Count(now));
      FlapLog.OneMoreTrim(window, OpsOf(id), KeptOf(id), StepsOf(id), FlapLog.Count(now));
      var ts, taken := Trim(KeptOf(id), now);
      FlapLog.CountIsExactInTime(window, OpsOf(id), KeptOf(id), now);
      ops, steps := ops[id := OpsOf(id) + [FlapLog.Count(now)]], steps[id := StepsOf(id) + taken];
      history := history[id := ts];
      n := |ts|;
    }

    method Remove(id: string)
      requires Valid()
      modifies this
      ensures Valid()
      ensures ops == old(ops) - {id} && steps == old(steps) - {id}
      ensures history == old(history) - {id}
    {
      history := history - {id};
      ops, steps := ops - {id}, steps - {id};
    }
  }

  /**
   Trimming is amortised: at any time, every record of a target since it was last removed has been stepped over once or
   is still kept, so that all trimming loops together have taken no more steps than there were records.
   */
  lemma TrimmingIsAmortised(ft: FlapTracker, id: string)
    requires ft.Valid()
    ensures ft.StepsOf(id) + |ft.KeptOf(id)| == |FlapLog.Logged(ft.OpsOf(id))|
    ensures ft.StepsOf(id) <= |FlapLog.Logged(ft.OpsOf(id))|
  {
    FlapLog.WindowRefinesLog(ft.window, ft.OpsOf(id));
    FlapLog.NothingKept(ft.window);
    FlapLog.NothingTrimmed(ft.window);
    hide FlapLog.Kept, FlapLog.Dropped, FlapLog.Logged, FlapLog.Latest;
    assert FlapLog.IsKept(ft.window, ft.OpsOf(id), ft.KeptOf(id));
    assert FlapLog.IsTrimmed(ft.window, ft.OpsOf(id), ft.StepsOf(id));
  }
}
