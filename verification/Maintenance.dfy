/** Maintenance windows over whole runs: when they take hold, and that outside of them they leave no trace. */
module Maintenance {
  import opened Model
  import opened Sequences
  import opened TargetMachine
  import opened Runs

  /** The call with the target's window taken away, unless its result falls strictly between the window's two ends. */
  function Cleared(call: Call): Call {
    if call.Probe? && OutsideWindow(call.target, call.result.timestamp)
    then call.(target := call.target.(maintenance := None)) else call
  }

  function AllCleared(calls: seq<Call>): seq<Call> {
    seq(|calls|, i requires 0 <= i < |calls| => Cleared(calls[i]))
  }

  lemma ClearedStep(cfg: Config, c: Option<Cell>, call: Call)
    ensures Step(cfg, c, Cleared(call)) == Step(cfg, c, call)
  {
    hide FlapsAfter, Ewma;
  }

  /** A window matters for no result at or before its start, or at or after its end. */
  lemma {:induction false} WindowsLeaveNoTrace(cfg: Config, calls: seq<Call>)
    ensures After(cfg, AllCleared(calls)) == After(cfg, calls)
    ensures Events(cfg, AllCleared(calls)) == Events(cfg, calls)
  {
    if calls != [] {
      hide Step, Cleared;
      assert Front(AllCleared(calls)) == AllCleared(Front(calls));
      WindowsLeaveNoTrace(cfg, Front(calls));
      ClearedStep(cfg, After(cfg, Front(calls)), Last(calls));
    }
  }

  /** The i-th call is a result that falls strictly between the two ends of its target's window. */
  predicate InWindow(calls: seq<Call>, i: nat)
    requires i < |calls|
  {
    && calls[i].Probe? && calls[i].target.maintenance.Some?
    && calls[i].target.maintenance.value.start < calls[i].result.timestamp < calls[i].target.maintenance.value.end
  }

  /** Nothing from the i-th call on silences the target or removes it. */
  ghost predicate LeftAloneFrom(calls: seq<Call>, i: nat) {
    forall j | i <= j < |calls| :: !calls[j].Remove? && !(calls[j].SetSilent? && calls[j].silent)
  }

  ghost predicate UnderMaintenance(calls: seq<Call>) {
    exists i: nat :: i < |calls| && InWindow(calls, i) && LeftAloneFrom(calls, i)
  }

  lemma OneMoreCall(calls: seq<Call>)
    requires calls != []
    ensures UnderMaintenance(calls) <==>
            || InWindow(calls, |calls| - 1)
            || (&& UnderMaintenance(Front(calls))
                && !Last(calls).Remove? && !(Last(calls).SetSilent? && Last(calls).silent))
  {
    var front := Front(calls);
    assert forall i | 0 <= i < |front| :: front[i] == calls[i];
    if UnderMaintenance(calls) && !InWindow(calls, |calls| - 1) {
      var i: nat :| i < |calls| && InWindow(calls, i) && LeftAloneFrom(calls, i);
      assert InWindow(front, i) && LeftAloneFrom(front, i);
      assert Last(calls) == calls[|calls| - 1];
    }
    if InWindow(calls, |calls| - 1) {
      assert LeftAloneFrom(calls, |calls| - 1);
    }
    if UnderMaintenance(front) && !Last(calls).Remove? && !(Last(calls).SetSilent? && Last(calls).silent) {
      var i: nat :| i < |front| && InWindow(front, i) && LeftAloneFrom(front, i);
      assert InWindow(calls, i) && LeftAloneFrom(calls, i);
    }
  }

  /**
   A target is in MAINTENANCE exactly if one of its results fell strictly between the two ends of its window and it was
   neither silenced nor removed since; and such a result emits nothing.
   */
  lemma {:induction false} MaintenanceExactly(cfg: Config, calls: seq<Call>)
    ensures StatusOf(cfg, calls) == Maintenance <==> UnderMaintenance(calls)
    ensures calls != [] && InWindow(calls, |calls| - 1) ==> LastEvent(cfg, calls).None?
  {
    if calls != [] {
      MaintenanceExactly(cfg, Front(calls));
      OneMoreCall(calls);
      hide UnderMaintenance, FlapsAfter, Ewma, StatusChange, After, LastEvent;
      LastCall(cfg, calls);
    }
  }
}
