/**
 Runs of internal/alerter/engine.go: which attempts and alerts any interleaving of calls of Process leads to, for all
 rules together and for each pair of a target and a rule taken by itself.
 */
module AlertRuns {
  import opened Model
  import opened Sequences
  import opened Throttle
  import opened Alerts

  /** One turn of the loop over the rules, on behalf of an event. Concurrent calls of Process interleave their turns. */
  datatype Turn = Turn(rule: nat, event: Event, reading: Reading)

  /** The turns of one call of Process. */
  function TurnsOf(event: Event, readings: seq<Reading>): seq<Turn> {
    seq(|readings|, i requires 0 <= i < |readings| => Turn(i, event, readings[i]))
  }

  /** Every turn is that of an existing rule, for a target with one of the identifiers. */
  ghost predicate Fits(rules: seq<RuleConfig>, turns: seq<Turn>, ids: set<string>) {
    forall k | 0 <= k < |turns| :: turns[k].rule < |rules| && turns[k].event.targetID in ids
  }

  lemma FitsFront(rules: seq<RuleConfig>, turns: seq<Turn>, ids: set<string>)
    requires Fits(rules, turns, ids) && turns != []
    ensures Fits(rules, Front(turns), ids)
    ensures Last(turns).rule < |rules| && Last(turns).event.targetID in ids
  {
    assert forall k | 0 <= k < |turns| - 1 :: Front(turns)[k] == turns[k];
    assert Last(turns) == turns[|turns| - 1];
  }

  /** All attempts of a run; a turn of a rule that does not exist makes none. */
  function AttemptsOf(rules: seq<RuleConfig>, turns: seq<Turn>): seq<Attempt> {
    if turns == [] then []
    else
      var t := Last(turns);
      AttemptsOf(rules, Front(turns)) + if t.rule < |rules| then FromRule(rules[t.rule], t.event, t.reading) else []
  }

  /** All alerts of a run. */
  function AlertsOf(rules: seq<RuleConfig>, turns: seq<Turn>): seq<AlertRecord> {
    if turns == [] then []
    else
      var t := Last(turns);
      AlertsOf(rules, Front(turns))
      + if t.rule < |rules|
        then FromAttempt(AttemptsOf(rules, Front(turns)), rules[t.rule], t.event, t.reading) else []
  }

  /** The alerts that one rule raised for one target. */
  function RaisedFor(alerts: seq<AlertRecord>, id: string, name: string): seq<AlertRecord> {
    if alerts == [] then []
    else
      RaisedFor(Front(alerts), id, name)
      + if Last(alerts).targetID == id && Last(alerts).ruleName == name then [Last(alerts)] else []
  }

  // ---- one rule and one target ------------------------------------------------------------------

  /** The turns in which the i-th rule matches an event of the target. */
  function Sightings(rules: seq<RuleConfig>, turns: seq<Turn>, id: string, i: nat): seq<Turn>
    requires i < |rules|
  {
    if turns == [] then []
    else Sightings(rules, Front(turns), id, i) + if Sights(rules, Last(turns), id, i) then [Last(turns)] else []
  }

  predicate Sights(rules: seq<RuleConfig>, t: Turn, id: string, i: nat)
    requires i < |rules|
  {
    t.rule == i && t.event.targetID == id && MatchRule(rules[i], t.event)
  }

  /** Each sighting is an attempt, checked by the first reading of the clock and stamped with the second. */
  function AttemptsAt(rule: RuleConfig, sightings: seq<Turn>): seq<Attempt> {
    seq(|sightings|, k requires 0 <= k < |sightings| =>
      Attempt(Key(sightings[k].event.targetID, rule.name), rule.throttle,
              sightings[k].reading.check, sightings[k].reading.stamp))
  }

  /** What the rule's throttle makes of these events when there are no others. */
  function RuleAlerts(rule: RuleConfig, sightings: seq<Turn>): seq<AlertRecord> {
    if sightings == [] then []
    else
      RuleAlerts(rule, Front(sightings))
      + FromAttempt(AttemptsAt(rule, Front(sightings)), rule, Last(sightings).event, Last(sightings).reading)
  }

  ghost predicate DistinctNames(rules: seq<RuleConfig>) {
    forall j, k | 0 <= j < k < |rules| :: rules[j].name != rules[k].name
  }

  lemma KeysAreOwn(rules: seq<RuleConfig>, ids: set<string>, target: string, id: string, i: nat, j: nat)
    requires DistinctNames(rules) && NoOverlap(ids, Names(rules)) && i < |rules| && j < |rules|
    requires id in ids && target in ids
    ensures Key(target, rules[j].name) == Key(id, rules[i].name) <==> j == i && target == id
    ensures rules[j].name == rules[i].name <==> j == i
  {
    hide Key, NoOverlap;
    KeysInjectiveExactly(ids, Names(rules));
    assert rules[i].name in Names(rules) && rules[j].name in Names(rules);
  }

  lemma {:induction false} OnKeyConcat(a: seq<Attempt>, b: seq<Attempt>, key: string)
    ensures OnKey(a + b, key) == OnKey(a, key) + OnKey(b, key)
  {
    if b == [] {
      assert a + b == a;
    } else {
      assert Front(a + b) == a + Front(b) && Last(a + b) == Last(b);
      OnKeyConcat(a, Front(b), key);
    }
  }

  lemma {:induction false} RaisedForConcat(a: seq<AlertRecord>, b: seq<AlertRecord>, id: string, name: string)
    ensures RaisedFor(a + b, id, name) == RaisedFor(a, id, name) + RaisedFor(b, id, name)
  {
    if b == [] {
      assert a + b == a;
    } else {
      assert Front(a + b) == a + Front(b) && Last(a + b) == Last(b);
      RaisedForConcat(a, Front(b), id, name);
    }
  }

  lemma OnKeyOfRule(rule: RuleConfig, event: Event, reading: Reading, key: string)
    ensures OnKey(FromRule(rule, event, reading), key) ==
            if Key(event.targetID, rule.name) == key then FromRule(rule, event, reading) else []
  {
    hide Key, MatchRule;
    assert OnKey([], key) == [];
    Snoc<Attempt>([], AttemptFor(rule, event, reading));
  }

  /** Only the earlier attempts on the same key matter for what an attempt leads to. */
  lemma RuleMindsItsKey(past: seq<Attempt>, alone: seq<Attempt>, rule: RuleConfig, event: Event, reading: Reading)
    requires OnKey(past, Key(event.targetID, rule.name)) == alone
    ensures FromAttempt(past, rule, event, reading) == FromAttempt(alone, rule, event, reading)
  {
    hide MatchRule, StampsAfter;
    KeysAreApart(past, Key(event.targetID, rule.name));
  }

  lemma RaisedByRule(past: seq<Attempt>, rule: RuleConfig, event: Event, reading: Reading, id: string, name: string)
    ensures var own := FromAttempt(past, rule, event, reading);
            && RaisedFor(own, id, name) == (if event.targetID == id && rule.name == name then own else [])
            && (!MatchRule(rule, event) ==> own == [])
  {
    hide MatchRule, StampsAfter, Key;
    assert RaisedFor([], id, name) == [];
    Snoc<AlertRecord>([], BuildAlert(rule, event, reading));
  }

  /** What one more turn adds for a target and a rule. */
  lemma {:induction false} OneMoreTurn(
      rules: seq<RuleConfig>, turns: seq<Turn>, ids: set<string>, id: string, i: nat)
    requires DistinctNames(rules) && NoOverlap(ids, Names(rules)) && Fits(rules, turns, ids)
    requires turns != [] && i < |rules| && id in ids
    ensures var key, t, past := Key(id, rules[i].name), Last(turns), AttemptsOf(rules, Front(turns));
            && OnKey(AttemptsOf(rules, turns), key) ==
               OnKey(past, key) + (if Sights(rules, t, id, i) then [AttemptFor(rules[i], t.event, t.reading)] else [])
            && RaisedFor(AlertsOf(rules, turns), id, rules[i].name) ==
               RaisedFor(AlertsOf(rules, Front(turns)), id, rules[i].name)
               + (if Sights(rules, t, id, i) then FromAttempt(OnKey(past, key), rules[i], t.event, t.reading) else [])
  {
    var t, key, past := Last(turns), Key(id, rules[i].name), AttemptsOf(rules, Front(turns));
    FitsFront(rules, turns, ids);
    KeysAreOwn(rules, ids, t.event.targetID, id, i, t.rule);
    hide Key, MatchRule, OnKey, RaisedFor, FromAttempt, Fits, NoOverlap, DistinctNames;
    var rule := rules[t.rule];
    OnKeyConcat(past, FromRule(rule, t.event, t.reading), key);
    OnKeyOfRule(rule, t.event, t.reading, key);
    RaisedForConcat(AlertsOf(rules, Front(turns)), FromAttempt(past, rule, t.event, t.reading), id, rules[i].name);
    RaisedByRule(past, rule, t.event, t.reading, id, rules[i].name);
    RuleMindsItsKey(past, OnKey(past, Key(t.event.targetID, rule.name)), rule, t.event, t.reading);
  }

  lemma {:induction false} OneMoreSighting(rule: RuleConfig, sightings: seq<Turn>, t: Turn)
    ensures AttemptsAt(rule, sightings + [t]) == AttemptsAt(rule, sightings) + [AttemptFor(rule, t.event, t.reading)]
    ensures RuleAlerts(rule, sightings + [t]) ==
            RuleAlerts(rule, sightings) + FromAttempt(AttemptsAt(rule, sightings), rule, t.event, t.reading)
  {
    hide FromAttempt;
    Snoc(sightings, t);
  }

  lemma {:induction false} LastSighting(rules: seq<RuleConfig>, turns: seq<Turn>, id: string, i: nat)
    requires turns != [] && i < |rules|
    ensures var before := Sightings(rules, Front(turns), id, i);
            Sightings(rules, turns, id, i) ==
            if Sights(rules, Last(turns), id, i) then before + [Last(turns)] else before
  {
    hide Sights;
  }

  /**
   Each pair of a target and a rule fares as if it were the only one: its attempts are those for the events that concern
   it, and its alerts are what the throttle makes of those events alone.
   */
  lemma {:induction false} PairFaresAlone(
      rules: seq<RuleConfig>, turns: seq<Turn>, ids: set<string>, id: string, i: nat)
    requires DistinctNames(rules) && NoOverlap(ids, Names(rules)) && Fits(rules, turns, ids)
    requires i < |rules| && id in ids
    ensures var sightings := Sightings(rules, turns, id, i);
            && OnKey(AttemptsOf(rules, turns), Key(id, rules[i].name)) == AttemptsAt(rules[i], sightings)
            && RaisedFor(AlertsOf(rules, turns), id, rules[i].name) == RuleAlerts(rules[i], sightings)
  {
    if turns != [] {
      hide Key, AttemptsOf, AlertsOf, OnKey, RaisedFor, FromAttempt, NoOverlap, DistinctNames, Fits, AttemptsAt,
        RuleAlerts, Sightings, Sights;
      FitsFront(rules, turns, ids);
      PairFaresAlone(rules, Front(turns), ids, id, i);
      OneMoreTurn(rules, turns, ids, id, i);
      LastSighting(rules, turns, id, i);
      OneMoreSighting(rules[i], Sightings(rules, Front(turns), id, i), Last(turns));
    } else {
      assert OnKey([], Key(id, rules[i].name)) == [] && RaisedFor([], id, rules[i].name) == [];
    }
  }

  /** The alerts are those of the accepted attempts, one for each, in order. */
  lemma {:induction false} AlertsOfAccepted(rule: RuleConfig, sightings: seq<Turn>, id: string)
    requires forall k | 0 <= k < |sightings| :: sightings[k].event.targetID == id && MatchRule(rule, sightings[k].event)
    ensures var accepted := Accepted(AttemptsAt(rule, sightings), Key(id, rule.name));
            var alerts := RuleAlerts(rule, sightings);
            && |alerts| == |accepted|
            && forall k | 0 <= k < |alerts| ::
                 && accepted[k] < |sightings|
                 && Announces(alerts[k], rule, sightings[accepted[k]].event, sightings[accepted[k]].reading)
  {
    if sightings != [] {
      hide Key, MatchRule, StampsAfter, BuildAlert, Announces;
      BuiltAlertAnnounces(rule, Last(sightings).event, Last(sightings).reading);
      var front, s := Front(sightings), Last(sightings);
      assert forall k | 0 <= k < |front| :: front[k] == sightings[k];
      assert s == sightings[|front|];
      AlertsOfAccepted(rule, front, id);
      assert Front(AttemptsAt(rule, sightings)) == AttemptsAt(rule, front);
    }
  }

  lemma {:induction false} SightingsMatch(rules: seq<RuleConfig>, turns: seq<Turn>, id: string, i: nat)
    requires i < |rules|
    ensures forall s | s in Sightings(rules, turns, id, i) :: s.event.targetID == id && MatchRule(rules[i], s.event)
  {
    if turns != [] {
      hide MatchRule;
      SightingsMatch(rules, Front(turns), id, i);
    }
  }

  /**
   The alerts are an optimal choice among the events: there is one for each accepted attempt, in order; these are
   separated by the rule's throttle, and no separated choice of the events is larger; and no interval sees more of their
   stamps than fit.
   */
  ghost predicate Optimal(alerts: seq<AlertRecord>, rule: RuleConfig, sightings: seq<Turn>, id: string) {
    var attempts, key, tau := AttemptsAt(rule, sightings), Key(id, rule.name), rule.throttle;
    var accepted := Accepted(attempts, key);
    && tau > 0
    && |alerts| == |accepted|
    && (forall k | 0 <= k < |accepted| ::
          && accepted[k] < |sightings|
          && Announces(alerts[k], rule, sightings[accepted[k]].event, sightings[accepted[k]].reading))
    && Separated(attempts, key, tau, accepted)
    && (forall pick: seq<nat> | Separated(attempts, key, tau, pick) :: |pick| <= |alerts|)
    && (forall a, b | a <= b :: CountIn(StampsOf(attempts, accepted), a, b) <= MostSpaced(b - a, tau))
  }

  /** The alerts of a rule for a target are an optimal choice among the events of the target that the rule matches. */
  lemma AlertsAreOptimal(rules: seq<RuleConfig>, turns: seq<Turn>, ids: set<string>, id: string, i: nat)
    requires DistinctNames(rules) && NoOverlap(ids, Names(rules)) && Fits(rules, turns, ids)
    requires i < |rules| && id in ids && rules[i].throttle > 0
    requires ClockForward(AttemptsAt(rules[i], Sightings(rules, turns, id, i)))
    ensures Optimal(RaisedFor(AlertsOf(rules, turns), id, rules[i].name), rules[i],
                    Sightings(rules, turns, id, i), id)
  {
    hide Key, MatchRule, Announces, AttemptsOf, AlertsOf, RaisedFor, Sightings, Accepted, RuleAlerts, Separated, Fits,
      NoOverlap, DistinctNames, ClockForward, CountIn, MostSpaced, StampsOf;
    var attempts, key, tau :=
      AttemptsAt(rules[i], Sightings(rules, turns, id, i)), Key(id, rules[i].name), rules[i].throttle;
    PairFaresAlone(rules, turns, ids, id, i);
    SightingsMatch(rules, turns, id, i);
    AlertsOfAccepted(rules[i], Sightings(rules, turns, id, i), id);
    ThrottleIsOptimal(attempts, key, tau);
    forall a, b | a <= b ensures CountIn(StampsOf(attempts, Accepted(attempts, key)), a, b) <= MostSpaced(b - a, tau) {
      ThrottleSpacing(attempts, key, tau, a, b - a);
    }
  }

  /** A rule with no throttle raises an alert for every event that it matches. */
  lemma UnthrottledAlertsAll(rules: seq<RuleConfig>, turns: seq<Turn>, ids: set<string>, id: string, i: nat)
    requires DistinctNames(rules) && NoOverlap(ids, Names(rules)) && Fits(rules, turns, ids)
    requires i < |rules| && id in ids && rules[i].throttle <= 0
    ensures var alerts := RaisedFor(AlertsOf(rules, turns), id, rules[i].name);
            var sightings := Sightings(rules, turns, id, i);
            && |alerts| == |sightings|
            && forall k | 0 <= k < |alerts| :: Announces(alerts[k], rules[i], sightings[k].event, sightings[k].reading)
  {
    hide Key, MatchRule, Announces, AttemptsOf, AlertsOf, RaisedFor, Sightings, RuleAlerts, Fits, NoOverlap,
      DistinctNames;
    PairFaresAlone(rules, turns, ids, id, i);
    SightingsMatch(rules, turns, id, i);
    UnthrottledRule(rules[i], Sightings(rules, turns, id, i));
  }

  lemma {:induction false} UnthrottledRule(rule: RuleConfig, sightings: seq<Turn>)
    requires rule.throttle <= 0 && forall k | 0 <= k < |sightings| :: MatchRule(rule, sightings[k].event)
    ensures var alerts := RuleAlerts(rule, sightings);
            && |alerts| == |sightings|
            && forall k | 0 <= k < |alerts| :: Announces(alerts[k], rule, sightings[k].event, sightings[k].reading)
  {
    if sightings != [] {
      hide MatchRule, StampsAfter, BuildAlert, Announces;
      assert forall k | 0 <= k < |sightings| - 1 :: Front(sightings)[k] == sightings[k];
      assert Last(sightings) == sightings[|sightings| - 1];
      UnthrottledRule(rule, Front(sightings));
      BuiltAlertAnnounces(rule, Last(sightings).event, Last(sightings).reading);
    }
  }

  // ---- what the alerts say ------------------------------------------------------------------------

  /** The alert was raised in the n-th turn, by a rule that matched the event, and says so. */
  predicate RaisedIn(a: AlertRecord, rules: seq<RuleConfig>, turns: seq<Turn>, n: nat) {
    && n < |turns| && turns[n].rule < |rules|
    && MatchRule(rules[turns[n].rule], turns[n].event)
    && Announces(a, rules[turns[n].rule], turns[n].event, turns[n].reading)
  }

  lemma {:induction false} AlertsComeFromTurns(rules: seq<RuleConfig>, turns: seq<Turn>)
    ensures forall a | a in AlertsOf(rules, turns) :: exists n :: RaisedIn(a, rules, turns, n)
  {
    if turns != [] {
      hide MatchRule, StampsAfter, BuildAlert, Announces;
      var t := Last(turns);
      AlertsComeFromTurns(rules, Front(turns));
      forall a | a in AlertsOf(rules, turns) ensures exists n :: RaisedIn(a, rules, turns, n) {
        if a in AlertsOf(rules, Front(turns)) {
          var n :| RaisedIn(a, rules, Front(turns), n);
          assert RaisedIn(a, rules, turns, n);
        } else {
          BuiltAlertAnnounces(rules[t.rule], t.event, t.reading);
          assert RaisedIn(a, rules, turns, |turns| - 1);
        }
      }
    }
  }
}
