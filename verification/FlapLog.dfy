/**
 The sliding-window log behind internal/fsm/flap.go, for one target: what the tracker keeps,
 as a function of the operations it has seen, against the log of everything ever recorded.
 */
module FlapLog {
  import opened Model
  import opened Sequences

  datatype Op = Record(at: Time) | Count(at: Time)

  /** The leading entries of ts before cutoff: what the trimming loop steps over. */
  function LeadBefore(ts: seq<Time>, cutoff: Time): seq<Time> {
    if ts != [] && ts[0] < cutoff then [ts[0]] + LeadBefore(ts[1..], cutoff) else []
  }

  /** What is left of ts when its leading entries before cutoff are dropped. */
  function DropBefore(ts: seq<Time>, cutoff: Time): seq<Time> {
    if ts != [] && ts[0] < cutoff then DropBefore(ts[1..], cutoff) else ts
  }

  lemma {:induction false} DropBeforeSplits(ts: seq<Time>, cutoff: Time)
    ensures LeadBefore(ts, cutoff) + DropBefore(ts, cutoff) == ts
    ensures forall x | x in LeadBefore(ts, cutoff) :: x < cutoff
    ensures DropBefore(ts, cutoff) != [] ==> cutoff <= DropBefore(ts, cutoff)[0]
  {
    if ts != [] && ts[0] < cutoff {
      DropBeforeSplits(ts[1..], cutoff);
    }
  }

  function Logged(ops: seq<Op>): seq<Time> {
    if ops == [] then []
    else if Last(ops).Record? then Logged(Front(ops)) + [Last(ops).at]
    else Logged(Front(ops))
  }

  function Kept(window: int, ops: seq<Op>): seq<Time> {
    if ops == [] then []
    else
      var trimmed := DropBefore(Kept(window, Front(ops)), Last(ops).at - window);
      if Last(ops).Record? then trimmed + [Last(ops).at] else trimmed
  }

  /** Everything that trimming has removed, in all operations together, oldest first. */
  function Dropped(window: int, ops: seq<Op>): seq<Time> {
    if ops == [] then []
    else Dropped(window, Front(ops)) + LeadBefore(Kept(window, Front(ops)), Last(ops).at - window)
  }

  ghost predicate IsKept(window: int, ops: seq<Op>, kept: seq<Time>) {
    kept == Kept(window, ops)
  }

  lemma NothingKept(window: int)
    ensures IsKept(window, [], [])
  {
  }

  lemma OneMoreKept(window: int, ops: seq<Op>, kept: seq<Time>, op: Op)
    requires IsKept(window, ops, kept)
    ensures var trimmed := DropBefore(kept, op.at - window);
            IsKept(window, ops + [op], if op.Record? then trimmed + [op.at] else trimmed)
  {
    Snoc(ops, op);
  }

  ghost predicate IsTrimmed(window: int, ops: seq<Op>, steps: nat) {
    steps == |Dropped(window, ops)|
  }

  lemma NothingTrimmed(window: int)
    ensures IsTrimmed(window, [], 0)
  {
  }

  lemma OneMoreTrim(window: int, ops: seq<Op>, kept: seq<Time>, steps: nat, op: Op)
    requires IsKept(window, ops, kept) && IsTrimmed(window, ops, steps)
    ensures IsTrimmed(window, ops + [op], steps + |LeadBefore(kept, op.at - window)|)
  {
    Snoc(ops, op);
  }

  lemma OneMoreLogged(ops: seq<Op>, op: Op)
    ensures Logged(ops + [op]) == if op.Record? then Logged(ops) + [op.at] else Logged(ops)
  {
    Snoc(ops, op);
  }

  function Latest(ops: seq<Op>): (t: Time)
    requires ops != []
    ensures forall i | 0 <= i < |ops| :: ops[i].at <= t
    ensures exists i | 0 <= i < |ops| :: ops[i].at == t
  {
    if |ops| == 1 then ops[0].at
    else
      var rest := Latest(Front(ops));
      assert forall i | 0 <= i < |ops| - 1 :: ops[i] == Front(ops)[i];
      if rest < Last(ops).at then assert ops[|ops| - 1].at == Last(ops).at; Last(ops).at else rest
  }

  ghost predicate Chronological(ops: seq<Op>) {
    forall i, j | 0 <= i <= j < |ops| :: ops[i].at <= ops[j].at
  }

  lemma OneMoreInOrder(ops: seq<Op>, op: Op)
    requires Chronological(ops) && forall i | 0 <= i < |ops| :: ops[i].at <= op.at
    ensures Chronological(ops + [op]) && forall i | 0 <= i < |ops + [op]| :: (ops + [op])[i].at <= op.at
  {
  }

  /** Trimming with one cutoff after another, in either order, is trimming once with the later one. */
  lemma {:induction false} DropBeforeTwice(ts: seq<Time>, first: Time, second: Time)
    ensures DropBefore(DropBefore(ts, first), second) == DropBefore(ts, if first < second then second else first)
  {
    if ts != [] && ts[0] < first {
      DropBeforeTwice(ts[1..], first, second);
    }
  }

  lemma SortedParts(s: seq<Time>, t: seq<Time>)
    requires Sorted(s + t)
    ensures Sorted(s) && Sorted(t)
  {
    assert forall i | 0 <= i < |s| :: s[i] == (s + t)[i];
    assert forall i | 0 <= i < |t| :: t[i] == (s + t)[|s| + i];
  }

  lemma DropBeforeCounts(ts: seq<Time>, cutoff: Time)
    requires Sorted(ts)
    ensures |DropBefore(ts, cutoff)| == CountFrom(ts, cutoff)
  {
    hide LeadBefore, DropBefore, CountFrom;
    var lead, kept := LeadBefore(ts, cutoff), DropBefore(ts, cutoff);
    DropBeforeSplits(ts, cutoff);
    SortedParts(lead, kept);
    CountFromNone(lead, cutoff);
    CountFromAll(kept, cutoff);
    CountFromConcat(lead, kept, cutoff);
  }

  /**
   For any order of timestamps: what is kept is a suffix of the log, and everything dropped lies before the
   window that ends at the latest instant seen.
   */
  lemma {:induction false} WindowRefinesLog(window: int, ops: seq<Op>)
    ensures Dropped(window, ops) + Kept(window, ops) == Logged(ops)
    ensures forall x | x in Dropped(window, ops) :: x < Latest(ops) - window
  {
    if ops != [] {
      WindowRefinesLog(window, Front(ops));
      DroppedThenKept(window, ops);
      hide LeadBefore, DropBefore, Kept, Logged, Latest;
      LatestGrows(ops);
      DropBeforeSplits(Kept(window, Front(ops)), Last(ops).at - window);
    }
  }

  ghost predicate Parts(s: seq<Time>, t: seq<Time>, whole: seq<Time>) {
    s + t == whole
  }

  lemma {:induction false} DroppedThenKept(window: int, ops: seq<Op>)
    requires ops != [] && Parts(Dropped(window, Front(ops)), Kept(window, Front(ops)), Logged(Front(ops)))
    ensures Parts(Dropped(window, ops), Kept(window, ops), Logged(ops))
  {
    var kept, cutoff := Kept(window, Front(ops)), Last(ops).at - window;
    LastOp(window, ops);
    hide Dropped, Kept, Logged, LeadBefore, DropBefore, Parts;
    LeadThenRest(kept, cutoff);
    Regroup(Dropped(window, Front(ops)), LeadBefore(kept, cutoff), DropBefore(kept, cutoff), kept,
            Logged(Front(ops)), Entries(Last(ops)));
  }

  lemma {:induction false} LeadThenRest(ts: seq<Time>, cutoff: Time)
    ensures Parts(LeadBefore(ts, cutoff), DropBefore(ts, cutoff), ts)
  {
    DropBeforeSplits(ts, cutoff);
  }

  /** What an operation adds to the log. */
  function Entries(op: Op): seq<Time> {
    if op.Record? then [op.at] else []
  }

  lemma {:induction false} LastOp(window: int, ops: seq<Op>)
    requires ops != []
    ensures var kept, cutoff := Kept(window, Front(ops)), Last(ops).at - window;
            && Dropped(window, ops) == Dropped(window, Front(ops)) + LeadBefore(kept, cutoff)
            && Kept(window, ops) == DropBefore(kept, cutoff) + Entries(Last(ops))
            && Logged(ops) == Logged(Front(ops)) + Entries(Last(ops))
  {
    hide LeadBefore, DropBefore;
  }

  lemma Regroup(
      dropped: seq<Time>, lead: seq<Time>, rest: seq<Time>, kept: seq<Time>, logged: seq<Time>, last: seq<Time>)
    requires Parts(lead, rest, kept) && Parts(dropped, kept, logged)
    ensures Parts(dropped + lead, rest + last, logged + last)
  {
    assert (dropped + lead) + rest == dropped + (lead + rest);
    assert (dropped + lead) + (rest + last) == ((dropped + lead) + rest) + last;
  }

  lemma LatestGrows(ops: seq<Op>)
    requires ops != []
    ensures Last(ops).at <= Latest(ops)
    ensures Front(ops) != [] ==> Latest(Front(ops)) <= Latest(ops)
  {
  }

  lemma {:induction false} LoggedWithin(ops: seq<Op>, t: Time)
    requires forall i | 0 <= i < |ops| :: ops[i].at <= t
    ensures forall i | 0 <= i < |Logged(ops)| :: Logged(ops)[i] <= t
  {
    if ops != [] {
      assert forall i | 0 <= i < |ops| - 1 :: Front(ops)[i] == ops[i];
      LoggedWithin(Front(ops), t);
    }
  }

  lemma {:induction false} LoggedSorted(ops: seq<Op>)
    requires Chronological(ops)
    ensures Sorted(Logged(ops))
  {
    if ops != [] {
      LoggedSorted(Front(ops));
      LoggedWithin(Front(ops), Last(ops).at);
    }
  }

  lemma CountOfParts(dropped: seq<Time>, kept: seq<Time>, cutoff: Time)
    requires Sorted(dropped + kept)
    requires forall x | x in dropped :: x < cutoff
    ensures |DropBefore(kept, cutoff)| == CountFrom(dropped + kept, cutoff)
  {
    CountFromNone(dropped, cutoff);
    CountFromConcat(dropped, kept, cutoff);
    SortedParts(dropped, kept);
    DropBeforeCounts(kept, cutoff);
  }

  /** When time does not run backwards, a count is the exact number of logged entries in the window, ends included. */
  lemma CountIsExact(window: int, ops: seq<Op>, kept: seq<Time>, now: Time)
    requires IsKept(window, ops, kept)
    requires Chronological(ops)
    requires forall i | 0 <= i < |ops| :: ops[i].at <= now
    ensures |DropBefore(kept, now - window)| == CountFrom(Logged(ops), now - window)
    ensures CountFrom(Logged(ops), now - window) == CountIn(Logged(ops), now - window, now)
  {
    hide Kept, Dropped, Logged, Latest, DropBefore, LeadBefore, CountFrom, CountIn;
    LoggedSorted(ops);
    LoggedWithin(ops, now);
    CountWithoutEnd(Logged(ops), now - window, now);
    WindowRefinesLog(window, ops);
    if ops != [] {
      assert Latest(ops) <= now;
    }
    CountOfParts(Dropped(window, ops), kept, now - window);
  }

  /** The same for any instants, as an implication. */
  lemma CountIsExactInTime(window: int, ops: seq<Op>, kept: seq<Time>, now: Time)
    requires IsKept(window, ops, kept)
    ensures Chronological(ops) && (forall i | 0 <= i < |ops| :: ops[i].at <= now) ==>
              |DropBefore(kept, now - window)| == CountIn(Logged(ops), now - window, now)
  {
    hide IsKept, DropBefore, Logged, CountFrom, CountIn;
    if Chronological(ops) && forall i | 0 <= i < |ops| :: ops[i].at <= now {
      CountIsExact(window, ops, kept, now);
    }
  }

  lemma {:induction false} CountWithoutEnd(ts: seq<Time>, a: Time, b: Time)
    requires forall i | 0 <= i < |ts| :: ts[i] <= b
    ensures CountFrom(ts, a) == CountIn(ts, a, b)
  {
    if ts != [] {
      CountWithoutEnd(Front(ts), a, b);
    }
  }
}
