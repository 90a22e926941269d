/** The counters and the status as functions of the whole history of probe outcomes. */
module Hysteresis {
  import opened Model
  import opened Sequences
  import opened TargetMachine
  import opened Runs

  /** The outcomes of all probes since the target was last removed, whatever its status was at the time. */
  function Outcomes(calls: seq<Call>): seq<bool> {
    if calls == [] || Last(calls).Remove? then []
    else if Last(calls).Probe? then Outcomes(Front(calls)) + [Last(calls).result.success]
    else Outcomes(Front(calls))
  }

  /** The outcomes at positions k - n + 1 to k are all v. */
  ghost predicate RunEndsAt(o: seq<bool>, v: bool, n: int, k: int) {
    0 <= k < |o| && n <= k + 1 && forall i | k - n < i <= k :: o[i] == v
  }

  /** The length of the run of v's that o ends with. */
  function Trailing(o: seq<bool>, v: bool): (n: nat)
    ensures n <= |o|
  {
    if o == [] || Last(o) != v then 0 else Trailing(Front(o), v) + 1
  }

  lemma {:induction false} TrailingIsLongestRun(o: seq<bool>, v: bool, n: int)
    requires o != [] && n >= 1
    ensures Trailing(o, v) >= n <==> RunEndsAt(o, v, n, |o| - 1)
  {
    if Last(o) == v && n > 1 {
      assert forall i | 0 <= i < |o| - 1 :: Front(o)[i] == o[i];
      if Front(o) != [] {
        TrailingIsLongestRun(Front(o), v, n - 1);
      }
    }
  }

  /**
   Through silence, maintenance and flapping alike, the two counters are the lengths of the trailing runs of
   failures and successes in the whole history.
   */
  lemma {:induction false} CountersAreTrailingRuns(cfg: Config, calls: seq<Call>)
    ensures After(cfg, calls).None? ==> Outcomes(calls) == []
    ensures After(cfg, calls).Some? ==>
              && After(cfg, calls).value.state.consecutiveFails == Trailing(Outcomes(calls), false)
              && After(cfg, calls).value.state.consecutiveSuccess == Trailing(Outcomes(calls), true)
  {
    hide Step;
    if calls != [] {
      hide After, Observed, Trailing;
      CountersAreTrailingRuns(cfg, Front(calls));
      CountersAfterLast(cfg, calls);
      if Last(calls).Probe? {
        OneMoreOutcome(Outcomes(Front(calls)), Last(calls).result.success);
      } else if Last(calls).Remove? {
        assert Outcomes(calls) == [];
      }
    }
  }

  lemma {:induction false} OneMoreOutcome(o: seq<bool>, x: bool)
    ensures Trailing(o + [x], true) == if x then Trailing(o, true) + 1 else 0
    ensures Trailing(o + [x], false) == if x then 0 else Trailing(o, false) + 1
  {
    Snoc(o, x);
  }

  function Fails(cfg: Config, calls: seq<Call>): nat {
    if After(cfg, calls).Some? then After(cfg, calls).value.state.consecutiveFails else 0
  }

  function Successes(cfg: Config, calls: seq<Call>): nat {
    if After(cfg, calls).Some? then After(cfg, calls).value.state.consecutiveSuccess else 0
  }

  lemma CountersAfterLast(cfg: Config, calls: seq<Call>)
    requires calls != []
    ensures After(cfg, calls).Some? <==> !Last(calls).Remove?
    ensures match Last(calls)
            case Probe(r, _, _) =>
              && Fails(cfg, calls) == Observed(cfg, calls).consecutiveFails
                 == (if r.success then 0 else Fails(cfg, Front(calls)) + 1)
              && Successes(cfg, calls) == Observed(cfg, calls).consecutiveSuccess
                 == (if r.success then Successes(cfg, Front(calls)) + 1 else 0)
            case SetSilent(_, _, _) =>
              Fails(cfg, calls) == Fails(cfg, Front(calls)) && Successes(cfg, calls) == Successes(cfg, Front(calls))
            case Remove(_) => Fails(cfg, calls) == 0 && Successes(cfg, calls) == 0
  {
    hide FlapsAfter, StatusChange, Derive;
  }

  // ---- the thresholds ---------------------------------------------------------------------------

  /** A target's own threshold applies if it is positive, and the configured one otherwise. */
  predicate InForce(own: int, configured: int, n: int) {
    (own > 0 && n == own) || (own <= 0 && n == configured)
  }

  predicate ThresholdsOf(cfg: Config, target: Target, d: int, r: int) {
    && InForce(target.alertConfig.downThreshold, cfg.downThreshold, d)
    && InForce(target.alertConfig.recoveryThreshold, cfg.recoveryThreshold, r)
  }

  /** Every probe of the run works with the same two thresholds, be they the target's own or the configured ones. */
  ghost predicate FixedThresholds(cfg: Config, calls: seq<Call>, d: int, r: int) {
    forall i | 0 <= i < |calls| && calls[i].Probe? :: ThresholdsOf(cfg, calls[i].target, d, r)
  }

  /** In every reachable state: UP and DEGRADED have fewer than d failures, DOWN fewer than r successes in a row. */
  lemma {:induction false} ThresholdsSeparate(cfg: Config, calls: seq<Call>, d: int, r: int)
    requires FixedThresholds(cfg, calls, d, r) && d >= 1 && r >= 1
    ensures StatusOf(cfg, calls) in {Up, Degraded} ==> Fails(cfg, calls) < d
    ensures StatusOf(cfg, calls) == Down ==> Successes(cfg, calls) < r
  {
    if calls != [] {
      hide After, LastRecordsFlap, LastEvent, Observed, Fails, Successes;
      assert Last(calls) == calls[|calls| - 1];
      assert forall i | 0 <= i < |calls| - 1 :: Front(calls)[i] == calls[i];
      ThresholdsSeparate(cfg, Front(calls), d, r);
      LastCall(cfg, calls);
      CountersAfterLast(cfg, calls);
      if Last(calls).Probe? {
        AwakeDerives(cfg, calls);
      }
    }
  }

  /** An awake target's new status is the derived one or FLAPPING. */
  lemma AwakeDerives(cfg: Config, calls: seq<Call>)
    requires calls != [] && Last(calls).Probe?
    ensures var t := Last(calls).target;
            var before, after := StatusOf(cfg, Front(calls)), StatusOf(cfg, calls);
            if InMaintenance(t, Last(calls).result.timestamp) then after == Maintenance
            else if before in {Silent, Maintenance} then after == before
            else after in {Flapping, Derive(cfg, Observed(cfg, calls), Last(calls).result, t)}
    ensures Observed(cfg, calls).status == StatusOf(cfg, Front(calls))
  {
    hide FlapsAfter, StatusChange;
    LastCall(cfg, calls);
  }

  /** UP or DEGRADED goes to DOWN on exactly the d-th failure in a row, DOWN to UP on exactly the r-th success. */
  lemma ThresholdsAreExact(cfg: Config, calls: seq<Call>, d: int, r: int)
    requires calls != [] && FixedThresholds(cfg, calls, d, r) && d >= 1 && r >= 1
    requires LastEvent(cfg, calls).Some?
    ensures var e := LastEvent(cfg, calls).value;
            && (e.fromStatus in {Up, Degraded} && e.toStatus != Flapping ==>
                  (e.toStatus == Down <==> e.consecutiveFails == d))
            && (e.fromStatus in {Up, Degraded} && e.toStatus == Down ==> Fails(cfg, Front(calls)) == d - 1)
            && (e.fromStatus == Down && e.toStatus == Up ==>
                  e.consecutiveSuccess == r && Successes(cfg, Front(calls)) == r - 1)
            && (e.fromStatus == Flapping ==> (e.toStatus == Up <==> e.consecutiveSuccess >= r))
  {
    hide After, LastRecordsFlap, LastEvent, Observed, Fails, Successes;
    assert Last(calls) == calls[|calls| - 1];
    assert forall i | 0 <= i < |calls| - 1 :: Front(calls)[i] == calls[i];
    ThresholdsSeparate(cfg, Front(calls), d, r);
    LastCall(cfg, calls);
    CountersAfterLast(cfg, calls);
    if Last(calls).Probe? {
      AwakeDerives(cfg, calls);
    }
  }

  // ---- the status as a function of the outcomes -------------------------------------------------

  /**
   DOWN, told from the outcomes alone: some run of d failures that comes after a success ends later than every
   run of r successes.
   */
  ghost predicate DownByHistory(o: seq<bool>, d: int, r: int) {
    exists k :: RunEndsAt(o, false, d, k) && SuccessBefore(o, k) && NoRunAfter(o, true, r, k)
  }

  ghost predicate SuccessBefore(o: seq<bool>, k: int) {
    exists f :: 0 <= f < k && f < |o| && o[f]
  }

  ghost predicate NoRunAfter(o: seq<bool>, v: bool, n: int, k: int) {
    forall j | k < j < |o| :: !RunEndsAt(o, v, n, j)
  }

  lemma PrefixAgrees(o: seq<bool>, x: bool, v: bool, n: int, k: int)
    requires 0 <= k < |o|
    ensures RunEndsAt(o + [x], v, n, k) <==> RunEndsAt(o, v, n, k)
    ensures SuccessBefore(o + [x], k) <==> SuccessBefore(o, k)
  {
    var o' := o + [x];
    assert forall i | 0 <= i < |o| :: o[i] == o'[i];
    if SuccessBefore(o, k) {
      var f :| 0 <= f < k && f < |o| && o[f];
      assert o'[f];
    }
  }

  lemma NoRunAfterGrows(o: seq<bool>, x: bool, r: int, k: int)
    requires 0 <= k < |o|
    ensures NoRunAfter(o + [x], true, r, k) <==> NoRunAfter(o, true, r, k) && !RunEndsAt(o + [x], true, r, |o|)
  {
    forall j | k < j < |o| ensures RunEndsAt(o + [x], true, r, j) <==> RunEndsAt(o, true, r, j) {
      PrefixAgrees(o, x, true, r, j);
    }
    if NoRunAfter(o + [x], true, r, k) {
      assert !RunEndsAt(o + [x], true, r, |o|);
      forall j | k < j < |o| ensures !RunEndsAt(o, true, r, j) {
        assert !RunEndsAt(o + [x], true, r, j);
      }
    }
  }

  lemma HistoryGrows(o: seq<bool>, x: bool, d: int, r: int)
    ensures DownByHistory(o + [x], d, r) <==>
            || (RunEndsAt(o + [x], false, d, |o|) && SuccessBefore(o + [x], |o|))
            || (DownByHistory(o, d, r) && !RunEndsAt(o + [x], true, r, |o|))
  {
    hide RunEndsAt, SuccessBefore, NoRunAfter;
    var o' := o + [x];
    if DownByHistory(o', d, r) {
      var k :| RunEndsAt(o', false, d, k) && SuccessBefore(o', k) && NoRunAfter(o', true, r, k);
      EndsWithin(o', false, d, k);
      if k < |o| {
        PrefixAgrees(o, x, false, d, k);
        NoRunAfterGrows(o, x, r, k);
      }
    }
    if RunEndsAt(o', false, d, |o|) && SuccessBefore(o', |o|) {
      NothingAfterEnd(o', r, |o|);
    }
    if DownByHistory(o, d, r) && !RunEndsAt(o', true, r, |o|) {
      var k :| RunEndsAt(o, false, d, k) && SuccessBefore(o, k) && NoRunAfter(o, true, r, k);
      EndsWithin(o, false, d, k);
      PrefixAgrees(o, x, false, d, k);
      NoRunAfterGrows(o, x, r, k);
    }
  }

  lemma EndsWithin(o: seq<bool>, v: bool, n: int, k: int)
    requires RunEndsAt(o, v, n, k)
    ensures 0 <= k < |o|
  {
  }

  lemma NothingAfterEnd(o: seq<bool>, r: int, k: int)
    requires k == |o| - 1
    ensures NoRunAfter(o, true, r, k)
  {
  }

  ghost predicate NeverFlapping(cfg: Config, calls: seq<Call>) {
    forall n | 0 <= n <= |calls| :: StatusOf(cfg, calls[..n]) != Flapping
  }

  /**
   The counters with their two thresholds amount to hysteresis over the history: while neither silence, maintenance
   nor the flap threshold interferes, the status of a target is a function of its outcomes (and of whether the last
   result is a degraded one) that mentions no counter.
   */
  lemma {:induction false} StatusRefinesHistory(cfg: Config, calls: seq<Call>, d: int, r: int)
    requires ProbesOutsideMaintenance(calls) && FixedThresholds(cfg, calls, d, r) && d >= 1 && r >= 1
    requires NeverFlapping(cfg, calls)
    ensures var o := Outcomes(calls);
            && |o| == |calls|
            && (StatusOf(cfg, calls) == Down <==> DownByHistory(o, d, r))
            && (StatusOf(cfg, calls) == Unknown <==> !SuccessBefore(o, |o|))
            && StatusOf(cfg, calls) in {Unknown, Up, Degraded, Down}
            && (StatusOf(cfg, calls) == Degraded <==>
                && calls != [] && IsDegraded(cfg, Last(calls).result, Last(calls).target)
                && SuccessBefore(o, |o| - 1) && !DownByHistory(Front(o), d, r))
  {
    hide After, LastRecordsFlap, LastEvent, Observed, Fails, Successes, Trailing, RunEndsAt, SuccessBefore,
      DownByHistory, StatusOf, Outcomes, IsDegraded, ThresholdsOf, OutsideWindow;
    if calls == [] {
      NothingByHistory(cfg, d, r);
    } else {
      assert Last(calls) == calls[|calls| - 1];
      assert forall i | 0 <= i < |calls| - 1 :: Front(calls)[i] == calls[i];
      assert NeverFlapping(cfg, Front(calls)) by {
        assert forall n | 0 <= n < |calls| :: Front(calls)[..n] == calls[..n];
      }
      assert calls[..|calls|] == calls;
      StatusRefinesHistory(cfg, Front(calls), d, r);
      StatusFollowsHistory(cfg, calls, d, r);
    }
  }

  lemma NothingByHistory(cfg: Config, d: int, r: int)
    ensures StatusOf(cfg, []) == Unknown && Outcomes([]) == []
    ensures !DownByHistory([], d, r) && !SuccessBefore([], 0)
  {
  }

  lemma SuccessGrows(o: seq<bool>, x: bool)
    ensures SuccessBefore(o + [x], |o| + 1) <==> SuccessBefore(o, |o|) || x
    ensures SuccessBefore(o + [x], |o|) <==> SuccessBefore(o, |o|)
  {
    var o' := o + [x];
    assert o'[|o|] == x;
    assert forall i | 0 <= i < |o| :: o[i] == o'[i];
    if SuccessBefore(o, |o|) {
      var f :| 0 <= f < |o| && o[f];
      assert o'[f];
    }
  }

  /** What one more probe does, in terms of the outcomes. */
  lemma {:induction false} StatusFollowsHistory(cfg: Config, calls: seq<Call>, d: int, r: int)
    requires calls != [] && Last(calls).Probe? && OutsideWindow(Last(calls).target, Last(calls).result.timestamp)
    requires ThresholdsOf(cfg, Last(calls).target, d, r) && d >= 1 && r >= 1
    requires StatusOf(cfg, calls) != Flapping
    requires var o := Outcomes(Front(calls));
             && (StatusOf(cfg, Front(calls)) == Down <==> DownByHistory(o, d, r))
             && (StatusOf(cfg, Front(calls)) == Unknown <==> !SuccessBefore(o, |o|))
             && StatusOf(cfg, Front(calls)) in {Unknown, Up, Degraded, Down}
    ensures var o := Outcomes(calls);
            && o == Outcomes(Front(calls)) + [Last(calls).result.success] && Front(o) == Outcomes(Front(calls))
            && (StatusOf(cfg, calls) == Down <==> DownByHistory(o, d, r))
            && (StatusOf(cfg, calls) == Unknown <==> !SuccessBefore(o, |o|))
            && StatusOf(cfg, calls) in {Unknown, Up, Degraded, Down}
            && (StatusOf(cfg, calls) == Degraded <==>
                && IsDegraded(cfg, Last(calls).result, Last(calls).target)
                && SuccessBefore(o, |o| - 1) && !DownByHistory(Front(o), d, r))
  {
    assert IsDegraded(cfg, Last(calls).result, Last(calls).target) ==> Last(calls).result.success;
    hide After, LastRecordsFlap, LastEvent, Fails, Successes, Trailing, RunEndsAt, SuccessBefore, DownByHistory,
      IsDegraded, Observed;
    var o, x := Outcomes(Front(calls)), Last(calls).result.success;
    AwakeDerives(cfg, calls);
    HistoryGrows(o, x, d, r);
    SuccessGrows(o, x);
    CountersByHistory(cfg, calls, d, r);
    if DownByHistory(o, d, r) {
      DownNeedsSuccess(o, d, r);
    }
  }

  lemma DownNeedsSuccess(o: seq<bool>, d: int, r: int)
    requires DownByHistory(o, d, r)
    ensures SuccessBefore(o, |o|)
  {
  }

  lemma CountersByHistory(cfg: Config, calls: seq<Call>, d: int, r: int)
    requires calls != [] && Last(calls).Probe? && d >= 1 && r >= 1
    ensures var o := Outcomes(calls);
            && (Observed(cfg, calls).consecutiveFails >= d <==> RunEndsAt(o, false, d, |o| - 1))
            && (Observed(cfg, calls).consecutiveSuccess >= r <==> RunEndsAt(o, true, r, |o| - 1))
  {
    hide RunEndsAt;
    CountersAreTrailingRuns(cfg, calls);
    CountersAfterLast(cfg, calls);
    TrailingIsLongestRun(Outcomes(calls), false, d);
    TrailingIsLongestRun(Outcomes(calls), true, r);
  }
}
