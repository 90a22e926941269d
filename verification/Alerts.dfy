/** Rules, alerts and their lifecycle in internal/alerter/engine.go, as functions. */
module Alerts {
  import opened Model
  import opened Sequences
  import opened Throttle

  datatype RuleConfig = RuleConfig(
    name: string,
    condition: string,
    channels: seq<string>,
    severity: Severity,
    throttle: int,
    escalateAfter: int)

  /** The value of an Alert at one moment. */
  datatype AlertRecord = AlertRecord(
    id: string,
    targetID: string,
    ruleName: string,
    severity: Severity,
    status: AlertStatus,
    channels: seq<string>,
    sentAt: Time,
    resolvedAt: Option<Time>,
    nextEscalateAt: Option<Time>)

  // ---- matching ---------------------------------------------------------------------------------

  predicate EvalSimpleCondition(cond: string, event: Event) {
    if cond == "event.to_status == 'DOWN'" then event.toStatus == Down
    else if cond == "event.to_status == 'UP' && event.from_status == 'DOWN'" then
      event.toStatus == Up && event.fromStatus == Down
    else event.eventType == StatusChanged
  }

  predicate MatchRule(rule: RuleConfig, event: Event) {
    if rule.condition == "" then false
    else if rule.condition == "DOWN" then event.toStatus == Down
    else if rule.condition == "UP" then event.toStatus == Up && event.fromStatus == Down
    else EvalSimpleCondition(rule.condition, event)
  }

  /** What one rule gets from outside: the clock for the check, the stamp and the alert, and a new identifier. */
  datatype Reading = Reading(check: Time, stamp: Time, sent: Time, alertID: string)

  function AttemptFor(rule: RuleConfig, event: Event, reading: Reading): Attempt {
    Attempt(Key(event.targetID, rule.name), rule.throttle, reading.check, reading.stamp)
  }

  function BuildAlert(rule: RuleConfig, event: Event, reading: Reading): AlertRecord {
    var severity := if rule.severity != Unset then rule.severity else if event.toStatus == Down then Error else Warn;
    AlertRecord(reading.alertID, event.targetID, rule.name, severity, Firing, rule.channels, reading.sent, None,
                if rule.escalateAfter > 0 then Some(reading.sent + rule.escalateAfter) else None)
  }

  /**
   A new alert says who it is about and which rule raised it, goes to the rule's channels with the rule's severity or,
   for want of one, ERROR for an outage and WARN otherwise, and is firing. It escalates later only if the rule says so.
   */
  predicate Announces(a: AlertRecord, rule: RuleConfig, event: Event, reading: Reading) {
    && a.id == reading.alertID && a.targetID == event.targetID && a.ruleName == rule.name
    && a.channels == rule.channels
    && (if rule.severity == Unset
        then (event.toStatus == Down ==> a.severity == Error) && (event.toStatus != Down ==> a.severity == Warn)
        else a.severity == rule.severity)
    && a.status == Firing && a.resolvedAt == None
    && a.sentAt == reading.sent
    && (rule.escalateAfter > 0 ==> a.nextEscalateAt == Some(a.sentAt + rule.escalateAfter))
    && (rule.escalateAfter <= 0 ==> a.nextEscalateAt == None)
  }

  lemma BuiltAlertAnnounces(rule: RuleConfig, event: Event, reading: Reading)
    ensures Announces(BuildAlert(rule, event, reading), rule, event, reading)
  {
  }

  /** The throttle attempts that one event causes: one for each rule it matches, in the order of the rules. */
  function AttemptsFor(rules: seq<RuleConfig>, event: Event, readings: seq<Reading>): seq<Attempt>
    requires |rules| == |readings|
  {
    if rules == [] then []
    else
      var before := AttemptsFor(Front(rules), event, Front(readings));
      if MatchRule(Last(rules), event) then before + [AttemptFor(Last(rules), event, Last(readings))] else before
  }

  /** The alerts that one event causes: one for each attempt that the throttle accepts. */
  function AlertsFor(past: seq<Attempt>, rules: seq<RuleConfig>, event: Event, readings: seq<Reading>): seq<AlertRecord>
    requires |rules| == |readings|
  {
    if rules == [] then []
    else
      var before := AlertsFor(past, Front(rules), event, Front(readings));
      var attempts := past + AttemptsFor(Front(rules), event, Front(readings));
      if MatchRule(Last(rules), event) && Accepts(StampsAfter(attempts), AttemptFor(Last(rules), event, Last(readings)))
      then before + [BuildAlert(Last(rules), event, Last(readings))]
      else before
  }

  /** What one rule contributes to the attempts, and to the alerts. */
  function FromRule(rule: RuleConfig, event: Event, reading: Reading): seq<Attempt> {
    if MatchRule(rule, event) then [AttemptFor(rule, event, reading)] else []
  }

  function FromAttempt(past: seq<Attempt>, rule: RuleConfig, event: Event, reading: Reading): seq<AlertRecord> {
    if MatchRule(rule, event) && Accepts(StampsAfter(past), AttemptFor(rule, event, reading))
    then [BuildAlert(rule, event, reading)] else []
  }

  lemma {:induction false} OneMoreRule(
      past: seq<Attempt>, rules: seq<RuleConfig>, event: Event, readings: seq<Reading>, i: nat)
    requires i < |rules| == |readings|
    ensures var attempts := AttemptsFor(rules[..i], event, readings[..i]);
            && AttemptsFor(rules[..i + 1], event, readings[..i + 1]) ==
               attempts + FromRule(rules[i], event, readings[i])
            && AlertsFor(past, rules[..i + 1], event, readings[..i + 1]) ==
               AlertsFor(past, rules[..i], event, readings[..i])
               + FromAttempt(past + attempts, rules[i], event, readings[i])
  {
    hide StampsAfter, MatchRule, BuildAlert;
    assert Front(rules[..i + 1]) == rules[..i] && Front(readings[..i + 1]) == readings[..i];
  }

  /** The attempt comes from one of the rules, on behalf of one of the targets. */
  ghost predicate FromRules(a: Attempt, rules: seq<RuleConfig>, ids: set<string>) {
    exists i, id :: 0 <= i < |rules| && id in ids && a.key == Key(id, rules[i].name) && a.throttle == rules[i].throttle
  }

  lemma {:induction false} EventsAttemptByRules(
      rules: seq<RuleConfig>, event: Event, readings: seq<Reading>, ids: set<string>)
    requires |rules| == |readings| && event.targetID in ids
    ensures forall a | a in AttemptsFor(rules, event, readings) :: FromRules(a, rules, ids)
  {
    if rules != [] {
      EventsAttemptByRules(Front(rules), event, Front(readings), ids);
      forall a | a in AttemptsFor(rules, event, readings) ensures FromRules(a, rules, ids) {
        if a in AttemptsFor(Front(rules), event, Front(readings)) {
          var i, id :| 0 <= i < |rules| - 1 && id in ids
                       && a.key == Key(id, Front(rules)[i].name) && a.throttle == Front(rules)[i].throttle;
          assert Front(rules)[i] == rules[i];
        } else {
          assert a.key == Key(event.targetID, rules[|rules| - 1].name) && a.throttle == rules[|rules| - 1].throttle;
        }
      }
    }
  }

  function Names(rules: seq<RuleConfig>): set<string> {
    set i | 0 <= i < |rules| :: rules[i].name
  }

  /**
   However the attempts of concurrent events interleave: when rules have names of their own and no two pairs overlap,
   the attempts for one target and one rule all go by that rule's throttle, so that what holds of a single throttle
   holds of each pair.
   */
  lemma DistinctNamesOneThrottle(attempts: seq<Attempt>, rules: seq<RuleConfig>, ids: set<string>, id: string, i: nat)
    requires forall a | a in attempts :: FromRules(a, rules, ids)
    requires forall j, k | 0 <= j < k < |rules| :: rules[j].name != rules[k].name
    requires NoOverlap(ids, Names(rules))
    requires i < |rules| && id in ids
    ensures OneThrottle(attempts, Key(id, rules[i].name), rules[i].throttle)
  {
    hide NoOverlap, Key;
    KeysInjectiveExactly(ids, Names(rules));
    forall n | 0 <= n < |attempts| && attempts[n].key == Key(id, rules[i].name)
      ensures attempts[n].throttle == rules[i].throttle
    {
      var a := attempts[n];
      assert a in attempts;
      var j, other :| 0 <= j < |rules| && other in ids
                      && a.key == Key(other, rules[j].name) && a.throttle == rules[j].throttle;
      assert rules[i].name in Names(rules) && rules[j].name in Names(rules);
    }
  }

  /** In particular when no identifier has a colon. */
  lemma ColonFreeTargetsOneThrottle(
      attempts: seq<Attempt>, rules: seq<RuleConfig>, ids: set<string>, id: string, i: nat)
    requires forall a | a in attempts :: FromRules(a, rules, ids)
    requires forall j, k | 0 <= j < k < |rules| :: rules[j].name != rules[k].name
    requires forall other | other in ids :: ':' !in other
    requires i < |rules| && id in ids
    ensures OneThrottle(attempts, Key(id, rules[i].name), rules[i].throttle)
  {
    hide OneThrottle, Key;
    ColonFreeKeysAreInjective(ids, Names(rules));
    DistinctNamesOneThrottle(attempts, rules, ids, id, i);
  }

  /** And when no rule name has one, whatever the identifiers: host:port does no harm by itself. */
  lemma ColonFreeRulesOneThrottle(
      attempts: seq<Attempt>, rules: seq<RuleConfig>, ids: set<string>, id: string, i: nat)
    requires forall a | a in attempts :: FromRules(a, rules, ids)
    requires forall j, k | 0 <= j < k < |rules| :: rules[j].name != rules[k].name
    requires forall j | 0 <= j < |rules| :: ':' !in rules[j].name
    requires i < |rules| && id in ids
    ensures OneThrottle(attempts, Key(id, rules[i].name), rules[i].throttle)
  {
    hide OneThrottle, Key;
    ColonFreeKeysAreInjective(ids, Names(rules));
    DistinctNamesOneThrottle(attempts, rules, ids, id, i);
  }

  // ---- lifecycle --------------------------------------------------------------------------------

  datatype Entry = Store(alert: AlertRecord) | Ack(id: string) | Resolve(targetID: string, now: Time)

  /** The alerts that have been stored, oldest first. */
  function Stored(ledger: seq<Entry>): seq<AlertRecord> {
    if ledger == [] then []
    else Stored(Front(ledger)) + if Last(ledger).Store? then [Last(ledger).alert] else []
  }

  lemma {:induction false} EntryIsStored(ledger: seq<Entry>, k: nat)
    requires k < |ledger| && ledger[k].Store?
    ensures ledger[k].alert in Stored(ledger)
  {
    if k < |ledger| - 1 {
      assert Front(ledger)[k] == ledger[k];
      EntryIsStored(Front(ledger), k);
    }
  }

  function Stores(alerts: seq<AlertRecord>): seq<Entry> {
    seq(|alerts|, i requires 0 <= i < |alerts| => Store(alerts[i]))
  }

  lemma {:induction false} StoredConcat(ledger: seq<Entry>, alerts: seq<AlertRecord>)
    ensures Stored(ledger + Stores(alerts)) == Stored(ledger) + alerts
  {
    if alerts == [] {
      assert ledger + Stores(alerts) == ledger;
    } else {
      var all := ledger + Stores(alerts);
      assert Front(all) == ledger + Stores(Front(alerts)) && Last(all) == Store(Last(alerts));
      StoredConcat(ledger, Front(alerts));
      assert alerts == Front(alerts) + [Last(alerts)];
    }
  }

  /** What an entry does to the alert known under an identifier, if there is one. */
  function Touch(a: Option<AlertRecord>, id: string, e: Entry): Option<AlertRecord> {
    match e
    case Store(alert) => if alert.id == id then Some(alert) else a
    case Ack(other) => if a.Some? && other == id then Some(a.value.(status := Acknowledged)) else a
    case Resolve(targetID, now) =>
      if a.Some? && a.value.targetID == targetID && a.value.status == Firing
      then Some(a.value.(status := Resolved, resolvedAt := Some(now)))
      else a
  }

  /** The alert known under an identifier after everything in the ledger. */
  function AlertAfter(ledger: seq<Entry>, id: string): Option<AlertRecord> {
    if ledger == [] then None else Touch(AlertAfter(Front(ledger), id), id, Last(ledger))
  }

  /** The time of the first Resolve for the target that no Ack of the alert precedes, if there is one. */
  function ResolvedBy(ledger: seq<Entry>, id: string, targetID: string): Option<Time> {
    if ledger == [] then None
    else
      var earlier := ResolvedBy(Front(ledger), id, targetID);
      if earlier.Some? then earlier
      else if Last(ledger).Resolve? && Last(ledger).targetID == targetID && Ack(id) !in Front(ledger)
      then Some(Last(ledger).now)
      else None
  }

  /**
   The fate of an alert after it was stored, told from what came later: an acknowledgement is final (no later Resolve
   touches it), otherwise the first Resolve for its target settles it; nothing else about the alert ever changes.
   */
  lemma {:induction false} FateOfAlert(ledger: seq<Entry>, alert: AlertRecord, later: seq<Entry>)
    requires alert.status == Firing && alert.resolvedAt == None
    requires forall k | 0 <= k < |later| && later[k].Store? :: later[k].alert.id != alert.id
    ensures AlertAfter(ledger + [Store(alert)] + later, alert.id) ==
            Some(alert.(
              status :=
                if Ack(alert.id) in later then Acknowledged
                else if ResolvedBy(later, alert.id, alert.targetID).Some? then Resolved
                else Firing,
              resolvedAt := ResolvedBy(later, alert.id, alert.targetID)))
  {
    var all := ledger + [Store(alert)] + later;
    if later == [] {
      assert all == ledger + [Store(alert)];
    } else {
      var front := Front(later);
      assert Front(all) == ledger + [Store(alert)] + front && Last(all) == Last(later);
      assert forall k | 0 <= k < |front| :: front[k] == later[k];
      assert later == front + [Last(later)];
      assert Ack(alert.id) in later <==> Ack(alert.id) in front || Last(later) == Ack(alert.id);
      FateOfAlert(ledger, alert, front);
      assert Last(later).Store? ==> Last(later).alert.id != alert.id;
    }
  }

  /** Without an Ack, an alert has been resolved as soon as there has been any Resolve for its target. */
  lemma {:induction false} ResolvedUnlessAcked(ledger: seq<Entry>, id: string, targetID: string)
    requires Ack(id) !in ledger
    ensures ResolvedBy(ledger, id, targetID).None? <==>
            forall k | 0 <= k < |ledger| :: !(ledger[k].Resolve? && ledger[k].targetID == targetID)
  {
    if ledger != [] {
      assert forall e | e in Front(ledger) :: e in ledger;
      assert forall k | 0 <= k < |ledger| - 1 :: Front(ledger)[k] == ledger[k];
      assert Last(ledger) == ledger[|ledger| - 1];
      ResolvedUnlessAcked(Front(ledger), id, targetID);
    }
  }
}
