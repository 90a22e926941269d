/** Sequences seen from their newest element, and counting of instants in a window. */
module Sequences {

  function Front<T>(s: seq<T>): (front: seq<T>)
    requires s != []
  {
    s[..|s| - 1]
  }

  function Last<T>(s: seq<T>): T
    requires s != []
  {
    s[|s| - 1]
  }

  lemma Snoc<T>(s: seq<T>, x: T)
    ensures s + [x] != [] && Front(s + [x]) == s && Last(s + [x]) == x
  {
  }

  ghost predicate Sorted(ts: seq<int>) {
    forall i, j | 0 <= i <= j < |ts| :: ts[i] <= ts[j]
  }

  /** How many entries lie in the closed interval [a, b]. */
  function CountIn(ts: seq<int>, a: int, b: int): (n: nat)
    ensures n <= |ts|
  {
    if ts == [] then 0 else CountIn(Front(ts), a, b) + if a <= Last(ts) <= b then 1 else 0
  }

  /** How many entries are not before a. */
  function CountFrom(ts: seq<int>, a: int): (n: nat)
    ensures n <= |ts|
  {
    if ts == [] then 0 else CountFrom(Front(ts), a) + if a <= Last(ts) then 1 else 0
  }

  lemma {:induction false} CountInWithinCountFrom(ts: seq<int>, a: int, b: int, cutoff: int)
    requires cutoff <= a
    ensures CountIn(ts, a, b) <= CountFrom(ts, cutoff)
  {
    if ts != [] {
      CountInWithinCountFrom(Front(ts), a, b, cutoff);
    }
  }

  lemma {:induction false} CountFromConcat(s: seq<int>, t: seq<int>, a: int)
    ensures CountFrom(s + t, a) == CountFrom(s, a) + CountFrom(t, a)
  {
    if t == [] {
      assert s + t == s;
    } else {
      assert Front(s + t) == s + Front(t) && Last(s + t) == Last(t);
      CountFromConcat(s, Front(t), a);
    }
  }

  lemma {:induction false} CountFromAll(ts: seq<int>, a: int)
    requires forall i | 0 <= i < |ts| :: ts[i] >= a
    ensures CountFrom(ts, a) == |ts|
  {
    if ts != [] {
      CountFromAll(Front(ts), a);
    }
  }

  lemma {:induction false} CountFromNone(ts: seq<int>, a: int)
    requires forall x | x in ts :: x < a
    ensures CountFrom(ts, a) == 0
  {
    if ts != [] {
      assert Last(ts) in ts;
      assert forall x | x in Front(ts) :: x in ts;
      CountFromNone(Front(ts), a);
    }
  }
}
