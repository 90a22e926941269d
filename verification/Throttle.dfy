/**
 The throttle of internal/alerter/engine.go. Each check of a stamp and the stamping itself happen under one lock, so
 concurrent calls of Process amount to some sequence of attempts; the clock is read once for the check and once more
 for the stamp.
 */
module Throttle {
  import opened Model
  import opened Sequences

  datatype Attempt = Attempt(key: string, throttle: int, check: Time, stamp: Time)

  type Stamps = map<string, Time>

  predicate Accepts(stamps: Stamps, a: Attempt) {
    !(a.key in stamps && a.throttle > 0 && a.check - stamps[a.key] < a.throttle)
  }

  function Next(stamps: Stamps, a: Attempt): Stamps {
    if Accepts(stamps, a) then stamps[a.key := a.stamp] else stamps
  }

  function StampsAfter(attempts: seq<Attempt>): Stamps {
    if attempts == [] then map[] else Next(StampsAfter(Front(attempts)), Last(attempts))
  }

  predicate LastAccepted(attempts: seq<Attempt>)
    requires attempts != []
  {
    Accepts(StampsAfter(Front(attempts)), Last(attempts))
  }

  /** The positions of the accepted attempts on a key. */
  function Accepted(attempts: seq<Attempt>, key: string): seq<nat> {
    if attempts == [] then []
    else if Last(attempts).key == key && LastAccepted(attempts) then Accepted(Front(attempts), key) + [|attempts| - 1]
    else Accepted(Front(attempts), key)
  }

  /** The clock does not run backwards, neither within an attempt nor from one attempt to the next. */
  ghost predicate ClockForward(attempts: seq<Attempt>) {
    && (forall i | 0 <= i < |attempts| :: attempts[i].check <= attempts[i].stamp)
    && (forall i, j | 0 <= i < j < |attempts| :: attempts[i].stamp <= attempts[j].check)
  }

  /** All attempts on the key go by the same throttle, as those of a rule with a name of its own do. */
  ghost predicate OneThrottle(attempts: seq<Attempt>, key: string, tau: int) {
    forall i | 0 <= i < |attempts| && attempts[i].key == key :: attempts[i].throttle == tau
  }

  /** A choice of attempts on the key, in order, each checked no sooner than tau after the one before was stamped. */
  ghost predicate Separated(attempts: seq<Attempt>, key: string, tau: int, pick: seq<nat>) {
    && (forall k | 0 <= k < |pick| :: pick[k] < |attempts| && attempts[pick[k]].key == key)
    && (forall k | 0 <= k < |pick| - 1 ::
          pick[k] < pick[k + 1] && attempts[pick[k + 1]].check - attempts[pick[k]].stamp >= tau)
  }

  lemma {:induction false} AcceptedWithin(attempts: seq<Attempt>, key: string)
    ensures forall k | 0 <= k < |Accepted(attempts, key)| ::
              Accepted(attempts, key)[k] < |attempts| && attempts[Accepted(attempts, key)[k]].key == key
  {
    if attempts != [] {
      AcceptedWithin(Front(attempts), key);
      var before := Accepted(Front(attempts), key);
      forall k | 0 <= k < |before| ensures attempts[before[k]].key == key {
        assert Front(attempts)[before[k]] == attempts[before[k]];
      }
    }
  }

  /** The stamp kept for a key is that of its latest accepted attempt. */
  lemma {:induction false} StampIsLatest(attempts: seq<Attempt>, key: string)
    ensures key in StampsAfter(attempts) <==> Accepted(attempts, key) != []
    ensures key in StampsAfter(attempts) ==>
              && Last(Accepted(attempts, key)) < |attempts|
              && StampsAfter(attempts)[key] == attempts[Last(Accepted(attempts, key))].stamp
  {
    if attempts != [] {
      StampIsLatest(Front(attempts), key);
      AcceptedWithin(Front(attempts), key);
    }
  }

  /** What the throttle accepts is itself separated. */
  lemma {:induction false} AcceptedIsSeparated(attempts: seq<Attempt>, key: string, tau: int)
    requires OneThrottle(attempts, key, tau) && tau > 0
    ensures Separated(attempts, key, tau, Accepted(attempts, key))
  {
    AcceptedWithin(attempts, key);
    if attempts != [] {
      var before, front := Accepted(Front(attempts), key), Front(attempts);
      assert forall i | 0 <= i < |front| :: front[i] == attempts[i];
      assert Last(attempts) == attempts[|attempts| - 1];
      AcceptedIsSeparated(front, key, tau);
      StampIsLatest(front, key);
    }
  }

  /** An attempt that comes tau after the m-th accepted one finds at least one more accepted by then. */
  lemma {:induction false} AcceptedInTime(attempts: seq<Attempt>, key: string, tau: int, m: nat, p: nat)
    requires OneThrottle(attempts, key, tau)
    requires m < |Accepted(attempts, key)| && Accepted(attempts, key)[m] < p < |attempts| && attempts[p].key == key
    requires attempts[p].check - attempts[Accepted(attempts, key)[m]].stamp >= tau
    ensures m + 1 < |Accepted(attempts, key)| && Accepted(attempts, key)[m + 1] <= p
  {
    var front := Front(attempts);
    var before := Accepted(front, key);
    assert forall i | 0 <= i < |front| :: front[i] == attempts[i];
    AcceptedWithin(front, key);
    if p < |front| {
      AcceptedInTime(front, key, tau, m, p);
    } else {
      assert Last(attempts) == attempts[p];
      StampIsLatest(front, key);
    }
  }

  lemma {:induction false} FirstIsAccepted(attempts: seq<Attempt>, key: string, p: nat)
    requires p < |attempts| && attempts[p].key == key
    ensures Accepted(attempts, key) != [] && Accepted(attempts, key)[0] <= p
  {
    var front := Front(attempts);
    AcceptedWithin(front, key);
    if p < |front| {
      assert front[p] == attempts[p];
      FirstIsAccepted(front, key, p);
    } else {
      StampIsLatest(front, key);
    }
  }

  /** Greedy stays ahead: the k-th accepted attempt comes no later than the k-th of any separated choice. */
  lemma {:induction false} ThrottleStaysAhead(attempts: seq<Attempt>, key: string, tau: int, pick: seq<nat>)
    requires ClockForward(attempts) && OneThrottle(attempts, key, tau) && tau > 0
    requires Separated(attempts, key, tau, pick) && pick != []
    ensures |pick| <= |Accepted(attempts, key)| && Accepted(attempts, key)[|pick| - 1] <= Last(pick)
  {
    if |pick| == 1 {
      FirstIsAccepted(attempts, key, pick[0]);
    } else {
      var rest := Front(pick);
      assert Separated(attempts, key, tau, rest) by {
        assert forall k | 0 <= k < |rest| :: rest[k] == pick[k];
      }
      ThrottleStaysAhead(attempts, key, tau, rest);
      AcceptedWithin(attempts, key);
      var g := Accepted(attempts, key)[|rest| - 1];
      assert pick[|rest| - 1] == Last(rest) && pick[|rest| - 1 + 1] == Last(pick);
      assert attempts[g].stamp <= attempts[Last(rest)].stamp;
      AcceptedInTime(attempts, key, tau, |rest| - 1, Last(pick));
    }
  }

  /** The accepted attempts are a separated choice, and no separated choice is larger. */
  lemma ThrottleIsOptimal(attempts: seq<Attempt>, key: string, tau: int)
    requires ClockForward(attempts) && OneThrottle(attempts, key, tau) && tau > 0
    ensures Separated(attempts, key, tau, Accepted(attempts, key))
    ensures forall pick: seq<nat> | Separated(attempts, key, tau, pick) :: |pick| <= |Accepted(attempts, key)|
  {
    AcceptedIsSeparated(attempts, key, tau);
    forall pick: seq<nat> | Separated(attempts, key, tau, pick) ensures |pick| <= |Accepted(attempts, key)| {
      if pick != [] {
        ThrottleStaysAhead(attempts, key, tau, pick);
      }
    }
  }

  // ---- spacing ----------------------------------------------------------------------------------

  function StampsOf(attempts: seq<Attempt>, pick: seq<nat>): seq<Time>
    requires forall k | 0 <= k < |pick| :: pick[k] < |attempts|
  {
    seq(|pick|, k requires 0 <= k < |pick| => attempts[pick[k]].stamp)
  }

  ghost predicate Spaced(ts: seq<Time>, tau: int) {
    forall k | 0 <= k < |ts| - 1 :: ts[k + 1] - ts[k] >= tau
  }

  /** Instants tau apart: n of them take up a closed interval of length (n - 1) * tau at least. */
  lemma {:induction false} SpacedReach(ts: seq<Time>, tau: int, a: Time, b: Time)
    requires Spaced(ts, tau) && tau > 0
    ensures ts != [] && Last(ts) < a ==> CountIn(ts, a, b) == 0
    ensures CountIn(ts, a, b) > 0 ==> Gaps(CountIn(ts, a, b), tau) <= b - a
    ensures CountIn(ts, a, b) > 0 && Last(ts) <= b ==> Gaps(CountIn(ts, a, b), tau) <= Last(ts) - a
  {
    if ts != [] {
      hide Gaps;
      var front := Front(ts);
      assert forall k | 0 <= k < |front| :: front[k] == ts[k];
      SpacedReach(front, tau, a, b);
      if front != [] {
        assert ts[|front| - 1 + 1] - ts[|front| - 1] >= tau;
        assert Last(front) <= Last(ts) - tau;
      }
      OneMoreGap(CountIn(front, a, b), tau);
    }
  }

  function Gaps(n: int, tau: int): int {
    (n - 1) * tau
  }

  lemma OneMoreGap(n: int, tau: int)
    ensures Gaps(n + 1, tau) == Gaps(n, tau) + tau && Gaps(1, tau) == 0
  {
  }

  lemma Monotone(x: int, y: int, tau: int)
    requires x <= y && tau > 0
    ensures x * tau <= y * tau
  {
  }

  /** The most instants tau apart that a closed interval of length d can hold. */
  function MostSpaced(d: int, tau: int): int
    requires tau > 0
  {
    d / tau + 1
  }

  lemma GapsFit(n: int, tau: int, d: int)
    requires Gaps(n, tau) <= d && tau > 0 && d >= 0
    ensures n <= MostSpaced(d, tau)
  {
    if n > d / tau + 1 {
      Monotone(d / tau + 1, n - 1, tau);
    }
  }

  lemma SpacedCount(ts: seq<Time>, tau: int, a: Time, d: int)
    requires Spaced(ts, tau) && tau > 0 && d >= 0
    ensures CountIn(ts, a, a + d) <= MostSpaced(d, tau)
  {
    hide CountIn, Gaps, Spaced;
    SpacedReach(ts, tau, a, a + d);
    if CountIn(ts, a, a + d) > 0 {
      GapsFit(CountIn(ts, a, a + d), tau, d);
    }
  }

  /** Stamps on one key are at least tau apart, so an interval of length D sees at most D / tau + 1 of them. */
  lemma {:induction false} ThrottleSpacing(attempts: seq<Attempt>, key: string, tau: int, a: Time, d: int)
    requires ClockForward(attempts) && OneThrottle(attempts, key, tau) && tau > 0 && d >= 0
    ensures forall k | 0 <= k < |Accepted(attempts, key)| :: Accepted(attempts, key)[k] < |attempts|
    ensures Spaced(StampsOf(attempts, Accepted(attempts, key)), tau)
    ensures CountIn(StampsOf(attempts, Accepted(attempts, key)), a, a + d) <= MostSpaced(d, tau)
  {
    hide Accepted, CountIn, MostSpaced;
    AcceptedIsSeparated(attempts, key, tau);
    SpacedCount(StampsOf(attempts, Accepted(attempts, key)), tau, a, d);
  }

  // ---- isolation --------------------------------------------------------------------------------

  /** The key under which a target and a rule are throttled. */
  function Key(targetID: string, ruleName: string): string {
    targetID + ":" + ruleName
  }

  /**
   One identifier extends the other across a colon, and the rule names make up for it: id1 is id2 + ":" + s and rule2
   is s + ":" + rule1, for some s.
   */
  predicate Overlap(id1: string, rule1: string, id2: string, rule2: string) {
    && |id2| < |id1|
    && id1[..|id2| + 1] == id2 + ":"
    && rule2 == id1[|id2| + 1..] + ":" + rule1
  }

  lemma OverlapMeans(id1: string, rule1: string, id2: string, rule2: string)
    ensures Overlap(id1, rule1, id2, rule2) <==> exists s: string :: id1 == id2 + ":" + s && rule2 == s + ":" + rule1
  {
    if Overlap(id1, rule1, id2, rule2) {
      var s := id1[|id2| + 1..];
      assert id1 == id1[..|id2| + 1] + s;
    }
    if s: string :| id1 == id2 + ":" + s && rule2 == s + ":" + rule1 {
      assert id1[..|id2| + 1] == id2 + ":" && id1[|id2| + 1..] == s;
    }
  }

  lemma OverlapCollides(id1: string, rule1: string, id2: string, rule2: string)
    requires Overlap(id1, rule1, id2, rule2)
    ensures Key(id1, rule1) == Key(id2, rule2)
  {
    var s := id1[|id2| + 1..];
    assert id1 == (id2 + ":") + s;
    assert ((id2 + ":") + s) + ":" + rule1 == id2 + ":" + (s + ":" + rule1);
  }

  lemma LongerCollides(id1: string, rule1: string, id2: string, rule2: string)
    requires Key(id1, rule1) == Key(id2, rule2) && |id2| < |id1|
    ensures Overlap(id1, rule1, id2, rule2)
  {
    var k := Key(id1, rule1);
    assert k == id2 + ":" + rule2;
    assert k[..|id2| + 1] == id2 + ":" && id1 == k[..|id1|];
    assert id1[..|id2| + 1] == k[..|id2| + 1];
    assert rule2 == k[|id2| + 1..];
    assert k[|id2| + 1..] == id1[|id2| + 1..] + (":" + rule1);
  }

  /** Two pairs have the same key if and only if they are the same pair or they overlap, one way or the other. */
  lemma KeysCollideExactly(id1: string, rule1: string, id2: string, rule2: string)
    ensures Key(id1, rule1) == Key(id2, rule2) <==>
            || (id1 == id2 && rule1 == rule2)
            || Overlap(id1, rule1, id2, rule2)
            || Overlap(id2, rule2, id1, rule1)
  {
    if Overlap(id1, rule1, id2, rule2) {
      OverlapCollides(id1, rule1, id2, rule2);
    }
    if Overlap(id2, rule2, id1, rule1) {
      OverlapCollides(id2, rule2, id1, rule1);
    }
    if Key(id1, rule1) == Key(id2, rule2) {
      if |id2| < |id1| {
        LongerCollides(id1, rule1, id2, rule2);
      } else if |id1| < |id2| {
        LongerCollides(id2, rule2, id1, rule1);
      } else {
        assert id1 == Key(id1, rule1)[..|id1|] && id2 == Key(id2, rule2)[..|id1|];
        assert rule1 == Key(id1, rule1)[|id1| + 1..] && rule2 == Key(id2, rule2)[|id1| + 1..];
      }
    }
  }

  /** Different pairs from the given identifiers and rule names have different keys. */
  ghost predicate KeysInjective(ids: set<string>, names: set<string>) {
    forall id1, rule1, id2, rule2 | id1 in ids && id2 in ids && rule1 in names && rule2 in names ::
      Key(id1, rule1) == Key(id2, rule2) ==> id1 == id2 && rule1 == rule2
  }

  /** No identifier extends another by ":" + s while a rule name extends another by s + ":" in front. */
  ghost predicate NoOverlap(ids: set<string>, names: set<string>) {
    forall id1, rule1, id2, rule2 | id1 in ids && id2 in ids && rule1 in names && rule2 in names ::
      !Overlap(id1, rule1, id2, rule2)
  }

  lemma KeysInjectiveExactly(ids: set<string>, names: set<string>)
    ensures KeysInjective(ids, names) <==> NoOverlap(ids, names)
  {
    forall id1, rule1, id2, rule2
      ensures Key(id1, rule1) == Key(id2, rule2) <==>
              || (id1 == id2 && rule1 == rule2) || Overlap(id1, rule1, id2, rule2) || Overlap(id2, rule2, id1, rule1)
    {
      KeysCollideExactly(id1, rule1, id2, rule2);
    }
    hide Key;
    if KeysInjective(ids, names) {
      forall id1, rule1, id2, rule2 | id1 in ids && id2 in ids && rule1 in names && rule2 in names
        ensures !Overlap(id1, rule1, id2, rule2)
      {
        assert Overlap(id1, rule1, id2, rule2) ==> Key(id1, rule1) == Key(id2, rule2);
      }
    }
  }

  /** Identifiers without colons are enough, and so are rule names without colons; an overlap takes both. */
  lemma ColonFreeKeysAreInjective(ids: set<string>, names: set<string>)
    requires (forall id | id in ids :: ':' !in id) || (forall name | name in names :: ':' !in name)
    ensures NoOverlap(ids, names) && KeysInjective(ids, names)
  {
    forall id1, rule1, id2, rule2 | id1 in ids && id2 in ids && rule1 in names && rule2 in names
      ensures !Overlap(id1, rule1, id2, rule2)
    {
      if Overlap(id1, rule1, id2, rule2) {
        OverlapTakesColons(id1, rule1, id2, rule2);
      }
    }
    KeysInjectiveExactly(ids, names);
  }

  lemma OverlapTakesColons(id1: string, rule1: string, id2: string, rule2: string)
    requires Overlap(id1, rule1, id2, rule2)
    ensures ':' in id1 && ':' in rule2
  {
    assert id1[|id2|] == id1[..|id2| + 1][|id2|] == ':';
    assert rule2[|id1| - |id2| - 1] == ':';
  }

  /** Two pairs that throttle each other: identifiers such as host:port with rule names such as port:rule. */
  lemma KeysCanCollide(a: string, b: string, c: string)
    ensures Key(a + ":" + b, c) == Key(a, b + ":" + c) && a + ":" + b != a
  {
    OverlapMeans(a + ":" + b, c, a, b + ":" + c);
    OverlapCollides(a + ":" + b, c, a, b + ":" + c);
  }

  function OnKey(attempts: seq<Attempt>, key: string): seq<Attempt> {
    if attempts == [] then []
    else if Last(attempts).key == key then OnKey(Front(attempts), key) + [Last(attempts)]
    else OnKey(Front(attempts), key)
  }

  /** The attempts at the given positions. */
  function Picked(attempts: seq<Attempt>, pick: seq<nat>): seq<Attempt>
    requires forall k | 0 <= k < |pick| :: pick[k] < |attempts|
  {
    seq(|pick|, k requires 0 <= k < |pick| => attempts[pick[k]])
  }

  function AcceptedOn(attempts: seq<Attempt>, key: string): seq<Attempt> {
    if attempts == [] then []
    else if Last(attempts).key == key && LastAccepted(attempts) then AcceptedOn(Front(attempts), key) + [Last(attempts)]
    else AcceptedOn(Front(attempts), key)
  }

  lemma {:induction false} AcceptedArePicked(attempts: seq<Attempt>, key: string)
    ensures forall k | 0 <= k < |Accepted(attempts, key)| :: Accepted(attempts, key)[k] < |attempts|
    ensures Picked(attempts, Accepted(attempts, key)) == AcceptedOn(attempts, key)
  {
    AcceptedWithin(attempts, key);
    if attempts != [] {
      var front := Front(attempts);
      AcceptedArePicked(front, key);
      assert Picked(attempts, Accepted(front, key)) == Picked(front, Accepted(front, key));
    }
  }

  lemma {:induction false} KeysAreApart(attempts: seq<Attempt>, key: string)
    ensures key in StampsAfter(attempts) <==> key in StampsAfter(OnKey(attempts, key))
    ensures key in StampsAfter(attempts) ==> StampsAfter(attempts)[key] == StampsAfter(OnKey(attempts, key))[key]
    ensures AcceptedOn(attempts, key) == AcceptedOn(OnKey(attempts, key), key)
  {
    if attempts != [] {
      KeysAreApart(Front(attempts), key);
      if Last(attempts).key == key {
        Snoc(OnKey(Front(attempts), key), Last(attempts));
      }
    }
  }

  /** Which attempts on a key are accepted, and the stamp they leave, do not depend on the attempts on other keys. */
  lemma KeysAreIsolated(attempts: seq<Attempt>, key: string)
    ensures var alone := OnKey(attempts, key);
            && (forall k | 0 <= k < |Accepted(attempts, key)| :: Accepted(attempts, key)[k] < |attempts|)
            && (forall k | 0 <= k < |Accepted(alone, key)| :: Accepted(alone, key)[k] < |alone|)
            && Picked(attempts, Accepted(attempts, key)) == Picked(alone, Accepted(alone, key))
            && (key in StampsAfter(attempts) <==> key in StampsAfter(alone))
            && (key in StampsAfter(attempts) ==> StampsAfter(attempts)[key] == StampsAfter(alone)[key])
  {
    KeysAreApart(attempts, key);
    AcceptedArePicked(attempts, key);
    AcceptedArePicked(OnKey(attempts, key), key);
  }
}
