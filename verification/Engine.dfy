/** internal/alerter/engine.go: the engine as it stands, with its throttle map and its alerts updated in place. */
module AlertEngine {
  import opened Model
  import opened Sequences
  import T = Throttle
  import A = Alerts
  import R = AlertRuns

  class Alert {
    const id: string
    const targetID: string
    const ruleName: string
    const severity: Severity
    const channels: seq<string>
    const sentAt: Time
    const nextEscalateAt: Option<Time>
    var status: AlertStatus
    var resolvedAt: Option<Time>

    constructor (a: A.AlertRecord)
      ensures Value() == a
    {
      id, targetID, ruleName, severity, channels := a.id, a.targetID, a.ruleName, a.severity, a.channels;
      sentAt, nextEscalateAt := a.sentAt, a.nextEscalateAt;
      status, resolvedAt := a.status, a.resolvedAt;
    }

    function Value(): A.AlertRecord
      reads this
    {
      A.AlertRecord(id, targetID, ruleName, severity, status, channels, sentAt, resolvedAt, nextEscalateAt)
    }
  }

  class Engine {
    const rules: seq<A.RuleConfig>
    var throttle: map<string, Time>
    var alerts: map<string, Alert>

    /**
     Every turn that a rule has had on behalf of an event, every throttle attempt, and everything that has happened to
     the alerts, oldest first.
     */
    ghost var turns: seq<R.Turn>
    ghost var attempts: seq<T.Attempt>
    ghost var ledger: seq<A.Entry>

    /** The attempts and the stored alerts are those that the turns lead to. */
    ghost predicate Valid()
      reads this, alerts.Values
    {
      Consistent() && IsRun(rules, turns, attempts, A.Stored(ledger))
    }

    ghost predicate Consistent()
      reads this, alerts.Values
    {
      && throttle == T.StampsAfter(attempts)
      && (forall id | id in alerts :: alerts[id].id == id)
      && (forall id :: IsAlert(ledger, id, AlertOf(id)))
    }

    function AlertOf(id: string): Option<A.AlertRecord>
      reads this`alerts, alerts.Values
    {
      if id in alerts then Some(alerts[id].Value()) else None
    }

    constructor (rules: seq<A.RuleConfig>)
      ensures Valid() && this.rules == rules && turns == [] && attempts == [] && ledger == []
    {
      this.rules := rules;
      throttle, alerts, turns, attempts, ledger := map[], map[], [], [], [];
    }

    /**
     Runs an event past all rules. The target is what getTarget returns for the event; when it is missing nothing
     happens. The alerts stored, in order, are those the throttle lets through.
     */
    method Process(event: Event, target: Option<Target>, readings: seq<A.Reading>)
      requires Valid() && |readings| == |rules|
      modifies this
      ensures turns == old(turns) + if target.Some? then R.TurnsOf(event, readings) else []
      ensures attempts == old(attempts) + if target.Some? then A.AttemptsFor(rules, event, readings) else []
      ensures ledger == old(ledger) +
                if target.Some? then A.Stores(A.AlertsFor(old(attempts), rules, event, readings)) else []
      ensures fresh(alerts.Values - old(alerts.Values))
      ensures Valid()
    {
      hide IsAlert, IsRun, A.AttemptsFor, A.AlertsFor, A.FromRule, A.FromAttempt, T.StampsAfter, A.Stores, A.Stored;
      NoRules(attempts, event);
      if target.None? {
        return;
      }
      for i := 0 to |rules|
        invariant Valid()
        invariant turns == old(turns) + R.TurnsOf(event, readings[..i])
        invariant attempts == old(attempts) + A.AttemptsFor(rules[..i], event, readings[..i])
        invariant ledger == old(ledger) + A.Stores(A.AlertsFor(old(attempts), rules[..i], event, readings[..i]))
        invariant fresh(alerts.Values - old(alerts.Values))
      {
        A.OneMoreRule(old(attempts), rules, event, readings, i);
        StoresConcat(A.AlertsFor(old(attempts), rules[..i], event, readings[..i]),
                     A.FromAttempt(attempts, rules[i], event, readings[i]));
        ProcessRule(rules[i], event, readings[i], i);
      }
      assert rules[..|rules|] == rules && readings[..|rules|] == readings;
    }

    /** The body of the loop over the rules. */
    method ProcessRule(rule: A.RuleConfig, event: Event, reading: A.Reading, ghost i: nat)
      requires Valid() && i < |rules| && rule == rules[i]
      modifies this
      ensures turns == old(turns) + [R.Turn(i, event, reading)]
      ensures attempts == old(attempts) + A.FromRule(rule, event, reading)
      ensures ledger == old(ledger) + A.Stores(A.FromAttempt(old(attempts), rule, event, reading))
      ensures fresh(alerts.Values - old(alerts.Values))
      ensures Valid()
    {
      hide IsAlert, IsRun, T.StampsAfter, A.Stored;
      OneMoreTurn(rules, turns, attempts, ledger, R.Turn(i, event, reading));
      turns := turns + [R.Turn(i, event, reading)];
      if !A.MatchRule(rule, event) {
        return;
      }
      var accepted := CheckAndStamp(T.Key(event.targetID, rule.name), rule.throttle, reading.check, reading.stamp);
      if !accepted {
        return;
      }
      StoreAlert(A.BuildAlert(rule, event, reading));
    }

    /** The throttle's critical section: one check, and the stamp if it passes. */
    method CheckAndStamp(key: string, tau: int, check: Time, stamp: Time) returns (accepted: bool)
      requires Consistent()
      modifies this`throttle, this`attempts
      ensures Consistent()
      ensures attempts == old(attempts) + [T.Attempt(key, tau, check, stamp)]
      ensures accepted == T.Accepts(old(throttle), T.Attempt(key, tau, check, stamp))
    {
      Snoc(attempts, T.Attempt(key, tau, check, stamp));
      attempts := attempts + [T.Attempt(key, tau, check, stamp)];
      if key in throttle && tau > 0 && check - throttle[key] < tau {
        return false;
      }
      throttle := throttle[key := stamp];
      return true;
    }

    method StoreAlert(a: A.AlertRecord)
      requires Consistent()
      modifies this`alerts, this`ledger
      ensures ledger == old(ledger) + [A.Store(a)]
      ensures forall id :: AlertOf(id) == A.Touch(old(AlertOf(id)), id, A.Store(a))
      ensures fresh(alerts.Values - old(alerts.Values))
      ensures Consistent()
    {
      hide IsAlert;
      NoteEntry(A.Store(a));
      var alert := new Alert(a);
      alerts := alerts[a.id := alert];
    }

    /** Acknowledges an alert, whatever its status; false when there is none with that identifier. */
    method AckAlert(id: string) returns (found: bool)
      requires Valid()
      modifies this`ledger, alerts.Values
      ensures found <==> old(AlertOf(id)).Some?
      ensures ledger == old(ledger) + [A.Ack(id)]
      ensures forall other :: AlertOf(other) == A.Touch(old(AlertOf(other)), other, A.Ack(id))
      ensures Valid()
    {
      hide IsAlert, IsRun, A.Stored;
      NoteEntry(A.Ack(id));
      if id !in alerts {
        return false;
      }
      alerts[id].status := Acknowledged;
      return true;
    }

    /** Resolves the firing alerts of a target. */
    method ResolveByTarget(targetID: string, now: Time)
      requires Valid()
      modifies this`ledger, alerts.Values
      ensures ledger == old(ledger) + [A.Resolve(targetID, now)]
      ensures forall id :: AlertOf(id) == A.Touch(old(AlertOf(id)), id, A.Resolve(targetID, now))
      ensures Valid()
    {
      hide IsAlert, IsRun, A.Stored;
      NoteEntry(A.Resolve(targetID, now));
      var rest := alerts.Keys;
      while rest != {}
        invariant rest <= alerts.Keys
        invariant ledger == old(ledger) + [A.Resolve(targetID, now)]
        invariant alerts == old(alerts) && throttle == old(throttle)
        invariant attempts == old(attempts) && turns == old(turns)
        invariant forall id | id in rest :: alerts[id].Value() == old(alerts[id].Value())
        invariant forall id | id in alerts.Keys - rest ::
                    Some(alerts[id].Value()) == A.Touch(Some(old(alerts[id].Value())), id, A.Resolve(targetID, now))
      {
        var id :| id in rest;
        var a := alerts[id];
        if a.targetID == targetID && a.status == Firing {
          a.status := Resolved;
          a.resolvedAt := Some(now);
        }
        rest := rest - {id};
      }
    }

    ghost method NoteEntry(e: A.Entry)
      requires Consistent()
      modifies this`ledger
      ensures ledger == old(ledger) + [e]
      ensures !e.Store? ==> A.Stored(ledger) == old(A.Stored(ledger))
      ensures forall id :: IsAlert(ledger, id, A.Touch(old(AlertOf(id)), id, e))
    {
      Snoc(ledger, e);
      ledger := ledger + [e];
      forall id ensures IsAlert(ledger, id, A.Touch(old(AlertOf(id)), id, e)) {
        assert IsAlert(old(ledger), id, old(AlertOf(id)));
      }
    }
  }

  lemma NoRules(past: seq<T.Attempt>, event: Event)
    ensures A.AttemptsFor([], event, []) == [] && A.Stores(A.AlertsFor(past, [], event, [])) == []
  {
  }

  lemma StoresConcat(a: seq<A.AlertRecord>, b: seq<A.AlertRecord>)
    ensures A.Stores(a + b) == A.Stores(a) + A.Stores(b)
  {
  }

  lemma {:induction false} OneMoreTurn(
      rules: seq<A.RuleConfig>, turns: seq<R.Turn>, attempts: seq<T.Attempt>, ledger: seq<A.Entry>, t: R.Turn)
    requires t.rule < |rules| && IsRun(rules, turns, attempts, A.Stored(ledger))
    ensures IsRun(rules, turns + [t], attempts + A.FromRule(rules[t.rule], t.event, t.reading),
                  A.Stored(ledger + A.Stores(A.FromAttempt(attempts, rules[t.rule], t.event, t.reading))))
  {
    hide A.FromRule, A.FromAttempt, A.Stores, A.Stored;
    Snoc(turns, t);
    A.StoredConcat(ledger, A.FromAttempt(attempts, rules[t.rule], t.event, t.reading));
  }

  ghost predicate IsRun(
      rules: seq<A.RuleConfig>, turns: seq<R.Turn>, attempts: seq<T.Attempt>, stored: seq<A.AlertRecord>)
  {
    && (forall k | 0 <= k < |turns| :: turns[k].rule < |rules|)
    && attempts == R.AttemptsOf(rules, turns) && stored == R.AlertsOf(rules, turns)
  }

  /**
   For any engine after any calls: the alerts it has stored for a rule and a target are those of an optimal choice among
   the events that concern them, provided that rule names are distinct and no two pairs overlap.
   */
  lemma StoredAlertsAreOptimal(e: Engine, ids: set<string>, id: string, i: nat)
    requires e.Valid() && R.DistinctNames(e.rules) && T.NoOverlap(ids, A.Names(e.rules))
    requires i < |e.rules| && id in ids && e.rules[i].throttle > 0
    requires forall k | 0 <= k < |e.turns| :: e.turns[k].event.targetID in ids
    requires T.ClockForward(R.AttemptsAt(e.rules[i], R.Sightings(e.rules, e.turns, id, i)))
    ensures R.Optimal(R.RaisedFor(A.Stored(e.ledger), id, e.rules[i].name), e.rules[i],
                      R.Sightings(e.rules, e.turns, id, i), id)
  {
    hide R.AttemptsOf, R.AlertsOf, A.Stored, T.NoOverlap, R.DistinctNames, T.ClockForward, R.Sightings, R.RaisedFor,
      R.Optimal;
    R.AlertsAreOptimal(e.rules, e.turns, ids, id, i);
  }

  /**
   For any engine after any calls: what has become of an alert since it was stored, if no other was stored under its
   identifier. A turn raised it, firing; it is acknowledged if it has been acknowledged, otherwise resolved if its
   target has been, and otherwise still firing.
   */
  lemma StoredAlertFate(e: Engine, k: nat)
    requires e.Valid() && k < |e.ledger| && e.ledger[k].Store?
    requires forall j | k < j < |e.ledger| && e.ledger[j].Store? :: e.ledger[j].alert.id != e.ledger[k].alert.id
    ensures var a, later := e.ledger[k].alert, e.ledger[k + 1..];
            && (exists n :: R.RaisedIn(a, e.rules, e.turns, n))
            && e.AlertOf(a.id) ==
               Some(a.(
                 status :=
                   if A.Ack(a.id) in later then Acknowledged
                   else if A.ResolvedBy(later, a.id, a.targetID).Some? then Resolved
                   else Firing,
                 resolvedAt := A.ResolvedBy(later, a.id, a.targetID)))
  {
    hide A.MatchRule, T.StampsAfter, A.Stored, R.AlertsOf, R.AttemptsOf, A.ResolvedBy, A.AlertAfter;
    var a, later := e.ledger[k].alert, e.ledger[k + 1..];
    A.EntryIsStored(e.ledger, k);
    R.AlertsComeFromTurns(e.rules, e.turns);
    assert e.ledger == e.ledger[..k] + [A.Store(a)] + later;
    A.FateOfAlert(e.ledger[..k], a, later);
    assert IsAlert(e.ledger, a.id, e.AlertOf(a.id));
  }

  ghost predicate IsAlert(ledger: seq<A.Entry>, id: string, a: Option<A.AlertRecord>) {
    a == A.AlertAfter(ledger, id)
  }
}
