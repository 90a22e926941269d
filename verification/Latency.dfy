/** The exponentially-weighted latency average, over the reals. */
module Latency {
  import opened Model
  import opened Sequences
  import opened TargetMachine
  import opened Runs

  /** The positive latencies of successful probes since the target was last removed. */
  function Samples(calls: seq<Call>): seq<real> {
    if calls == [] || Last(calls).Remove? then []
    else if IsSample(Last(calls)) then Samples(Front(calls)) + [Last(calls).result.latencyMs]
    else Samples(Front(calls))
  }

  predicate IsSample(call: Call) {
    call.Probe? && call.result.success && call.result.latencyMs > 0.0
  }

  function Average(cfg: Config, calls: seq<Call>): real {
    if After(cfg, calls).Some? then After(cfg, calls).value.state.avgLatencyMs else 0.0
  }

  function Pow(b: real, n: nat): real {
    if n == 0 then 1.0 else b * Pow(b, n - 1)
  }

  /** The weight of sample i among n: the first sample starts the average, each later one enters with weight 0.1. */
  function Weight(n: nat, i: nat): real
    requires i < n
  {
    if i == 0 then Pow(0.9, n - 1) else 0.1 * Pow(0.9, n - 1 - i)
  }

  function Share(n: nat, i: nat, x: real): real
    requires i < n
  {
    Weight(n, i) * x
  }

  /** The first |xs| of n weighted samples. */
  function WeightedSum(xs: seq<real>, n: nat): real
    requires |xs| <= n
  {
    if xs == [] then 0.0 else WeightedSum(Front(xs), n) + Share(n, |xs| - 1, Last(xs))
  }

  function Ones(n: nat): seq<real> {
    seq(n, _ => 1.0)
  }

  lemma AverageAfterLast(cfg: Config, calls: seq<Call>)
    requires calls != []
    ensures Average(cfg, calls) ==
            if Last(calls).Remove? then 0.0
            else if IsSample(Last(calls)) then
              Ewma(Average(cfg, Front(calls)), Last(calls).result.latencyMs, EWMA_ALPHA)
            else Average(cfg, Front(calls))
  {
    hide FlapsAfter, StatusChange, RecordsFlap, Derive, Ewma;
  }

  lemma ShareDecays(n: nat, i: nat, x: real)
    requires i < n
    ensures Share(n + 1, i, x) == 0.9 * Share(n, i, x)
  {
    hide Weight;
    assert Weight(n + 1, i) == 0.9 * Weight(n, i) by {
      WeightDecays(n, i);
    }
    Associate(0.9, Weight(n, i), x);
  }

  lemma WeightDecays(n: nat, i: nat)
    requires i < n
    ensures Weight(n + 1, i) == 0.9 * Weight(n, i)
  {
    if i > 0 {
      Associate(0.9, 0.1, Pow(0.9, n - 1 - i));
    }
  }

  lemma Associate(a: real, b: real, c: real)
    ensures (a * b) * c == a * (b * c)
  {
  }

  lemma Distribute(a: real, b: real, c: real)
    ensures a * (b + c) == a * b + a * c
  {
  }

  lemma {:induction false} SumDecays(xs: seq<real>, n: nat)
    requires |xs| <= n
    ensures WeightedSum(xs, n + 1) == 0.9 * WeightedSum(xs, n)
  {
    if xs != [] {
      hide Share;
      SumDecays(Front(xs), n);
      ShareDecays(n, |xs| - 1, Last(xs));
      Distribute(0.9, WeightedSum(Front(xs), n), Share(n, |xs| - 1, Last(xs)));
    }
  }

  lemma NewestShare(n: nat, x: real)
    ensures Share(n + 1, n, x) == if n == 0 then x else 0.1 * x
  {
  }

  lemma NextSum(xs: seq<real>, x: real)
    ensures WeightedSum(xs + [x], |xs| + 1) ==
            if xs == [] then x else 0.1 * x + 0.9 * WeightedSum(xs, |xs|)
  {
    hide Share, WeightedSum;
    SumUnfolds(xs, x);
    NewestShare(|xs|, x);
    SumDecays(xs, |xs|);
    if xs == [] {
      NothingWeighs();
    }
  }

  lemma SumUnfolds(xs: seq<real>, x: real)
    ensures WeightedSum(xs + [x], |xs| + 1) == WeightedSum(xs, |xs| + 1) + Share(|xs| + 1, |xs|, x)
  {
    hide Share;
    Snoc(xs, x);
  }

  /** The weights of n samples total one. */
  lemma {:induction false} WeightsTotalOne(n: nat)
    requires n > 0
    ensures WeightedSum(Ones(n), n) == 1.0
  {
    if n > 1 {
      WeightsTotalOne(n - 1);
      assert Ones(n) == Ones(n - 1) + [1.0];
    } else {
      assert Ones(1) == [] + [1.0];
    }
    NextSum(Ones(n - 1), 1.0);
  }

  /** The average is the weighted sum of all samples, and zero exactly when there has been none. */
  lemma {:induction false} AverageIsWeightedSum(cfg: Config, calls: seq<Call>)
    ensures Average(cfg, calls) == WeightedSum(Samples(calls), |Samples(calls)|)
    ensures Average(cfg, calls) >= 0.0
    ensures Average(cfg, calls) == 0.0 <==> Samples(calls) == []
  {
    if calls != [] {
      hide Average, WeightedSum;
      AverageIsWeightedSum(cfg, Front(calls));
      AverageAfterLast(cfg, calls);
      NothingWeighs();
      if IsSample(Last(calls)) {
        NextSum(Samples(Front(calls)), Last(calls).result.latencyMs);
      }
    }
  }

  lemma NothingWeighs()
    ensures WeightedSum([], 0) == WeightedSum([], 1) == 0.0
  {
  }

  /** The average lies between any bounds on the samples, the least and the greatest sample among them. */
  lemma {:induction false} AverageWithinSamples(cfg: Config, calls: seq<Call>, lo: real, hi: real)
    requires Samples(calls) != [] && forall x | x in Samples(calls) :: lo <= x <= hi
    ensures lo <= Average(cfg, calls) <= hi
  {
    hide Average;
    AverageAfterLast(cfg, calls);
    AverageIsWeightedSum(cfg, Front(calls));
    if IsSample(Last(calls)) {
      var before, x := Samples(Front(calls)), Last(calls).result.latencyMs;
      assert Samples(calls)[|before|] == x;
      assert x in Samples(calls);
      assert forall y | y in before :: y in Samples(calls);
      if before != [] {
        AverageWithinSamples(cfg, Front(calls), lo, hi);
      }
    } else {
      AverageWithinSamples(cfg, Front(calls), lo, hi);
    }
  }

  function Abs(x: real): real {
    if x < 0.0 then -x else x
  }

  ghost predicate Scaled(x: real, p: real, y: real) {
    x == p * y
  }

  /** Once there is an average, n more samples of the same latency shrink its distance from it by 0.9 each time. */
  lemma AverageConverges(cfg: Config, calls: seq<Call>, later: seq<Call>, c: real)
    requires Samples(calls) != []
    requires forall i | 0 <= i < |later| :: IsSample(later[i]) && later[i].result.latencyMs == c
    ensures Abs(Average(cfg, calls + later) - c) == Pow(0.9, |later|) * Abs(Average(cfg, calls) - c)
  {
    hide Average, Pow, Abs, Scaled, Samples;
    GapShrinks(cfg, calls, later, c);
    PowPositive(0.9, |later|);
    AbsScales(Average(cfg, calls + later) - c, Pow(0.9, |later|), Average(cfg, calls) - c);
  }

  lemma {:induction false} GapShrinks(cfg: Config, calls: seq<Call>, later: seq<Call>, c: real)
    requires Samples(calls) != []
    requires forall i | 0 <= i < |later| :: IsSample(later[i]) && later[i].result.latencyMs == c
    ensures Samples(calls + later) != []
    ensures Scaled(Average(cfg, calls + later) - c, Pow(0.9, |later|), Average(cfg, calls) - c)
  {
    hide Average, Pow, Ewma, Scaled;
    if later == [] {
      assert calls + later == calls;
      NoStep(Average(cfg, calls) - c);
    } else {
      var all := calls + later;
      assert Front(all) == calls + Front(later) && Last(all) == later[|later| - 1];
      assert forall i | 0 <= i < |later| - 1 :: Front(later)[i] == later[i];
      GapShrinks(cfg, calls, Front(later), c);
      AverageIsWeightedSum(cfg, Front(all));
      AverageAfterLast(cfg, all);
      StepToward(Average(cfg, Front(all)), c, |later|, Average(cfg, calls) - c);
    }
  }

  lemma NoStep(gap: real)
    ensures Scaled(gap, Pow(0.9, 0), gap)
  {
  }

  lemma StepToward(avg: real, c: real, n: nat, gap: real)
    requires n > 0 && avg != 0.0 && Scaled(avg - c, Pow(0.9, n - 1), gap)
    ensures Scaled(Ewma(avg, c, EWMA_ALPHA) - c, Pow(0.9, n), gap)
  {
    var p := Pow(0.9, n - 1);
    assert 0.9 * (p * gap) == (0.9 * p) * gap;
  }

  lemma {:induction false} PowPositive(b: real, n: nat)
    requires b > 0.0
    ensures Pow(b, n) > 0.0
  {
    if n > 0 {
      PowPositive(b, n - 1);
    }
  }

  lemma AbsScales(x: real, p: real, y: real)
    requires p > 0.0 && Scaled(x, p, y)
    ensures Abs(x) == p * Abs(y)
  {
    if y < 0.0 {
      assert p * y < 0.0;
      assert p * -y == -(p * y);
    } else {
      assert p * y >= 0.0;
    }
  }
}
