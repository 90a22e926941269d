/** From status changes to alerts: what the events of the state machine mean for the rules they are run past. */
module Pipeline {
  import opened Model
  import opened Sequences
  import opened TargetMachine
  import opened Runs
  import EventLog
  import Records
  import A = Alerts

  const DOWN_CONDITIONS: set<string> := {"DOWN", "event.to_status == 'DOWN'"}
  const UP_CONDITIONS: set<string> := {"UP", "event.to_status == 'UP' && event.from_status == 'DOWN'"}

  /** The number of events that a rule matches. */
  function Matches(events: seq<Event>, rule: A.RuleConfig): nat {
    if events == [] then 0 else Matches(Front(events), rule) + if A.MatchRule(rule, Last(events)) then 1 else 0
  }

  lemma ConditionsMean(rule: A.RuleConfig, e: Event)
    ensures rule.condition in DOWN_CONDITIONS ==> (A.MatchRule(rule, e) <==> e.toStatus == Down)
    ensures rule.condition in UP_CONDITIONS ==> (A.MatchRule(rule, e) <==> e.toStatus == Up && e.fromStatus == Down)
  {
    assert "event.to_status == 'DOWN'" != "event.to_status == 'UP' && event.from_status == 'DOWN'";
  }

  /**
   What every event of every run means for every rule: those without a condition never fire, the four conditions the
   engine knows say what they seem to say, and any other, whatever it says, fires on every event.
   */
  lemma {:induction false} ConditionsOverRuns(cfg: Config, calls: seq<Call>, rule: A.RuleConfig)
    ensures forall e | e in Events(cfg, calls) ::
              A.MatchRule(rule, e) <==>
                && rule.condition != ""
                && (rule.condition in DOWN_CONDITIONS ==> e.toStatus == Down)
                && (rule.condition in UP_CONDITIONS ==> e.toStatus == Up && e.fromStatus == Down)
  {
    if calls != [] {
      hide After, LastEvent, A.MatchRule;
      ConditionsOverRuns(cfg, Front(calls), rule);
      if LastEvent(cfg, calls).Some? {
        Records.EventTellsItsProbe(cfg, calls);
        EveryCondition(rule, LastEvent(cfg, calls).value);
      }
    }
  }

  lemma EveryCondition(rule: A.RuleConfig, e: Event)
    requires e.eventType == StatusChanged
    ensures A.MatchRule(rule, e) <==>
              && rule.condition != ""
              && (rule.condition in DOWN_CONDITIONS ==> e.toStatus == Down)
              && (rule.condition in UP_CONDITIONS ==> e.toStatus == Up && e.fromStatus == Down)
  {
    ConditionsMean(rule, e);
  }

  /**
   Over any run, a rule for recoveries matches no more often than a rule for outages has matched before it, and strictly
   less often while the target is known to be DOWN.
   */
  lemma {:induction false} RecoveriesFollowOutages(cfg: Config, calls: seq<Call>, down: A.RuleConfig, up: A.RuleConfig)
    requires down.condition in DOWN_CONDITIONS && up.condition in UP_CONDITIONS
    ensures var events := Events(cfg, calls);
            Matches(events, up) + (if EventLog.Replay(EventLog.Log(cfg, calls)) == Down then 1 else 0)
            <= Matches(events, down)
  {
    if calls != [] {
      hide After, LastEvent, A.MatchRule, EventLog.Log, EventLog.Replay, EventLog.Quiet;
      RecoveriesFollowOutages(cfg, Front(calls), down, up);
      EventLog.LogReplays(cfg, Front(calls));
      EventLog.LogStep(cfg, calls);
      EventLog.ReplayStep(cfg, calls);
      if LastEvent(cfg, calls).Some? {
        var e := LastEvent(cfg, calls).value;
        Snoc(Events(cfg, Front(calls)), e);
        ConditionsMean(down, e);
        ConditionsMean(up, e);
      }
    }
  }
}
