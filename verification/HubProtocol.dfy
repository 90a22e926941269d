/**
 The broadcast hub of internal/api/ws.go as interleaved steps. A broadcast holds the read lock from Begin to End and
 in between picks one client after another and sends to it; Subscribe and the first half of Unsubscribe need the write
 lock, so they wait for every broadcast in progress; the second half, which closes the channel, needs no lock at all.
 */
module HubProtocol {
  import opened Model
  import opened Sequences

  const CAPACITY: nat := 32

  /** A message put to a channel by a broadcast, with the backlog it found there: it is dropped if that was full. */
  datatype Offer<T> = Offer(cast: nat, msg: T, backlog: nat)

  /** Besides its content: whether the channel is closed, and how many calls of Unsubscribe are about to close it. */
  datatype Channel<T> = Channel(queue: seq<T>, received: seq<T>, offers: seq<Offer<T>>, closed: bool, closing: nat)

  function NewChannel<T>(): Channel<T> {
    Channel([], [], [], false, 0)
  }

  datatype Cast<T> = Cast(msg: T, visited: set<nat>, current: Option<nat>)

  /**
   clients are the registered channels, casts the broadcasts in progress. Sending to a closed channel is a panic, and so
   is closing one again.
   */
  datatype State<T> = State(
    clients: set<nat>,
    channels: map<nat, Channel<T>>,
    casts: map<nat, Cast<T>>,
    nextCast: nat,
    sentToClosed: bool,
    closedAgain: bool)

  datatype Action<T> =
    | Subscribe(ch: nat)
    | Withdraw(ch: nat)
    | Close(ch: nat)
    | Begin(msg: T)
    | Pick(cast: nat, ch: nat)
    | Send(cast: nat)
    | End(cast: nat)
    | Receive(ch: nat)

  function Push<T>(queue: seq<T>, msg: T): seq<T> {
    if |queue| < CAPACITY then queue + [msg] else queue
  }

  lemma PushKeepsUpTo32<T>(msg: T)
    ensures forall queue: seq<T> :: Push(queue, msg) == if |queue| < 32 then queue + [msg] else queue
  {
  }

  function Offered<T>(c: Channel<T>, cast: nat, msg: T): Channel<T> {
    c.(queue := Push(c.queue, msg), offers := c.offers + [Offer(cast, msg, |c.queue|)])
  }

  function Initial<T>(): State<T> {
    State({}, map[], map[], 0, false, false)
  }

  /**
   A step that is not possible leaves the state as it is: one that waits for a lock, or one for a channel that does not
   exist. Unsubscribe may be called for a channel any number of times, at the same time too: a Withdraw of a channel
   that is not registered any more deletes nothing and still leads to a Close.
   */
  function Next<T>(s: State<T>, a: Action<T>): State<T> {
    match a
    case Subscribe(ch) =>
      if s.casts != map[] || ch in s.channels then s
      else s.(clients := s.clients + {ch}, channels := s.channels[ch := NewChannel()])
    case Withdraw(ch) =>
      if s.casts != map[] || ch !in s.channels then s
      else
        var c := s.channels[ch];
        s.(clients := s.clients - {ch}, channels := s.channels[ch := c.(closing := c.closing + 1)])
    case Close(ch) =>
      if ch !in s.channels || s.channels[ch].closing == 0 then s
      else
        var c := s.channels[ch];
        s.(channels := s.channels[ch := c.(closing := c.closing - 1, closed := true)],
           closedAgain := s.closedAgain || c.closed)
    case Begin(msg) => s.(casts := s.casts[s.nextCast := Cast(msg, {}, None)], nextCast := s.nextCast + 1)
    case Pick(b, ch) =>
      if b !in s.casts || s.casts[b].current.Some? || ch !in s.clients || ch in s.casts[b].visited then s
      else s.(casts := s.casts[b := s.casts[b].(visited := s.casts[b].visited + {ch}, current := Some(ch))])
    case Send(b) =>
      if b !in s.casts || s.casts[b].current.None? || s.casts[b].current.value !in s.channels then s
      else
        var ch := s.casts[b].current.value;
        if s.channels[ch].closed then s.(sentToClosed := true)
        else s.(channels := s.channels[ch := Offered(s.channels[ch], b, s.casts[b].msg)],
                casts := s.casts[b := s.casts[b].(current := None)])
    case End(b) =>
      if !CanEnd(s, b) then s else s.(casts := s.casts - {b})
    case Receive(ch) =>
      if ch !in s.channels || s.channels[ch].queue == [] then s
      else
        var c := s.channels[ch];
        s.(channels := s.channels[ch := c.(queue := c.queue[1..], received := c.received + [c.queue[0]])])
  }

  /** The loop over the clients is over: all have been visited, and none is being sent to. */
  predicate CanEnd<T>(s: State<T>, b: nat) {
    b in s.casts && s.casts[b].current.None? && s.clients <= s.casts[b].visited
  }

  /** What one turn of the loop amounts to when nothing comes in between. */
  lemma PickThenSend<T>(s: State<T>, b: nat, msg: T, visited: set<nat>, ch: nat)
    requires s.casts == map[b := Cast(msg, visited, None)]
    requires ch in s.clients && ch !in visited && ch in s.channels && !s.channels[ch].closed
    ensures Next(Next(s, Pick(b, ch)), Send(b)) ==
            s.(channels := s.channels[ch := Offered(s.channels[ch], b, msg)],
               casts := map[b := Cast(msg, visited + {ch}, None)])
  {
    hide Offered;
    var picked := Next(s, Pick(b, ch));
    assert picked.casts == map[b := Cast(msg, visited + {ch}, Some(ch))];
    assert picked == s.(casts := picked.casts);
  }

  /** A call of Unsubscribe that nothing comes into. */
  lemma WithdrawThenClose<T>(s: State<T>, ch: nat)
    requires s.casts == map[] && ch in s.channels
    ensures Next(Next(s, Withdraw(ch)), Close(ch)) ==
            s.(clients := s.clients - {ch},
               channels := s.channels[ch := s.channels[ch].(closed := true)],
               closedAgain := s.closedAgain || s.channels[ch].closed)
  {
    hide CanEnd, Push, Offered;
    var c := s.channels[ch];
    var withdrawn := Next(s, Withdraw(ch));
    assert withdrawn.channels[ch] == c.(closing := c.closing + 1);
    assert withdrawn.channels[ch := c.(closed := true)] == s.channels[ch := c.(closed := true)];
  }

  function Exec<T>(actions: seq<Action<T>>): State<T> {
    if actions == [] then Initial() else Next(Exec(Front(actions)), Last(actions))
  }

  // ---- safety -----------------------------------------------------------------------------------

  ghost predicate Safe<T>(s: State<T>) {
    && !s.sentToClosed
    && s.clients <= s.channels.Keys
    && (forall ch | ch in s.clients :: !s.channels[ch].closed && s.channels[ch].closing == 0)
    && (forall b | b in s.casts :: b < s.nextCast && s.casts[b].visited <= s.clients)
    && (forall b | b in s.casts && s.casts[b].current.Some? :: s.casts[b].current.value in s.casts[b].visited)
  }

  lemma SafeNext<T>(s: State<T>, a: Action<T>)
    requires Safe(s)
    ensures Safe(Next(s, a))
  {
  }

  /** In every interleaving, however often channels are unsubscribed: nothing is ever sent to a closed channel. */
  lemma {:induction false} HubNeverSendsToClosed<T>(actions: seq<Action<T>>)
    ensures Safe(Exec(actions))
    ensures !Exec(actions).sentToClosed
  {
    if actions != [] {
      HubNeverSendsToClosed(Front(actions));
      SafeNext(Exec(Front(actions)), Last(actions));
    }
  }

  // ---- closing ----------------------------------------------------------------------------------

  predicate Unsubscribes<T>(s: State<T>, a: Action<T>, ch: nat) {
    a == Withdraw(ch) && s.casts == map[] && ch in s.channels
  }

  predicate Closes<T>(s: State<T>, a: Action<T>, ch: nat) {
    a == Close(ch) && ch in s.channels && s.channels[ch].closing > 0
  }

  /** The number of calls of Unsubscribe for a channel that have got past the lock. */
  function Unsubscribed<T>(actions: seq<Action<T>>, ch: nat): nat {
    if actions == [] then 0
    else
      Unsubscribed(Front(actions), ch) + if Unsubscribes(Exec(Front(actions)), Last(actions), ch) then 1 else 0
  }

  /** The number of times close has been called for a channel. */
  function Closings<T>(actions: seq<Action<T>>, ch: nat): nat {
    if actions == [] then 0
    else Closings(Front(actions), ch) + if Closes(Exec(Front(actions)), Last(actions), ch) then 1 else 0
  }

  function ClosingOf<T>(s: State<T>, ch: nat): nat {
    if ch in s.channels then s.channels[ch].closing else 0
  }

  predicate ClosedIn<T>(s: State<T>, ch: nat) {
    ch in s.channels && s.channels[ch].closed
  }

  lemma ClosingNext<T>(s: State<T>, a: Action<T>, ch: nat)
    ensures var s' := Next(s, a);
            && ClosingOf(s', ch) ==
               ClosingOf(s, ch) + (if Unsubscribes(s, a, ch) then 1 else 0) - (if Closes(s, a, ch) then 1 else 0)
            && (ClosedIn(s', ch) <==> ClosedIn(s, ch) || Closes(s, a, ch))
  {
    hide CanEnd, Push;
  }

  lemma ClosedAgainNext<T>(s: State<T>, a: Action<T>)
    ensures Next(s, a).closedAgain <==> s.closedAgain || (a.Close? && Closes(s, a, a.ch) && ClosedIn(s, a.ch))
  {
    hide CanEnd, Push, Offered;
  }

  /** Each Unsubscribe past the lock has closed its channel or is about to, and a channel is closed once it has been. */
  lemma {:induction false} ClosingsBalance<T>(actions: seq<Action<T>>, ch: nat)
    ensures Unsubscribed(actions, ch) == Closings(actions, ch) + ClosingOf(Exec(actions), ch)
    ensures ClosedIn(Exec(actions), ch) <==> Closings(actions, ch) > 0
  {
    if actions != [] {
      hide Next, Unsubscribes, Closes, ClosingOf, ClosedIn;
      ClosingsBalance(Front(actions), ch);
      ClosingNext(Exec(Front(actions)), Last(actions), ch);
    } else {
      assert ClosingOf<T>(Initial(), ch) == 0 && !ClosedIn<T>(Initial(), ch);
    }
  }

  /** Some channel has been closed for a second time. */
  ghost predicate ClosedTwice<T>(actions: seq<Action<T>>) {
    exists ch :: Closings(actions, ch) >= 2
  }

  ghost predicate ClosesAgain<T>(actions: seq<Action<T>>)
    requires actions != []
  {
    var s, a := Exec(Front(actions)), Last(actions);
    a.Close? && Closes(s, a, a.ch) && ClosedIn(s, a.ch)
  }

  lemma ClosedTwiceNext<T>(actions: seq<Action<T>>)
    requires actions != []
    ensures ClosedTwice(actions) <==> ClosedTwice(Front(actions)) || ClosesAgain(actions)
  {
    hide Exec, ClosedIn;
    var s, a := Exec(Front(actions)), Last(actions);
    if ClosedTwice(Front(actions)) {
      var ch :| Closings(Front(actions), ch) >= 2;
      assert Closings(actions, ch) >= 2;
    }
    if ClosesAgain(actions) {
      ClosingsBalance(Front(actions), a.ch);
      assert Closings(actions, a.ch) >= 2;
    }
    if ClosedTwice(actions) && !ClosedTwice(Front(actions)) {
      var ch :| Closings(actions, ch) >= 2;
      assert Closings(Front(actions), ch) < 2;
      ClosingsBalance(Front(actions), ch);
    }
  }

  /** In every interleaving, closing panics if and only if some channel is closed for a second time. */
  lemma {:induction false} ClosingPanicsExactly<T>(actions: seq<Action<T>>)
    ensures Exec(actions).closedAgain <==> ClosedTwice(actions)
  {
    if actions != [] {
      hide Next, ClosedTwice, Closes, ClosedIn;
      ClosingPanicsExactly(Front(actions));
      ClosedAgainNext(Exec(Front(actions)), Last(actions));
      ClosedTwiceNext(actions);
    }
  }

  /**
   In terms of Unsubscribe: where each channel is unsubscribed at most once, as handleWS does, nothing panics; and once
   all calls have run to their end, closing has panicked exactly if some channel had more than one.
   */
  lemma UnsubscribingTwicePanics<T>(actions: seq<Action<T>>)
    ensures (forall ch :: Unsubscribed(actions, ch) <= 1) ==> !Exec(actions).sentToClosed && !Exec(actions).closedAgain
    ensures (forall ch :: ClosingOf(Exec(actions), ch) == 0) ==>
              (Exec(actions).closedAgain <==> exists ch :: Unsubscribed(actions, ch) >= 2)
  {
    hide Exec, Closings, ClosingOf, Unsubscribed;
    HubNeverSendsToClosed(actions);
    ClosingPanicsExactly(actions);
    forall ch ensures Unsubscribed(actions, ch) == Closings(actions, ch) + ClosingOf(Exec(actions), ch) {
      ClosingsBalance(actions, ch);
    }
    if ClosedTwice(actions) {
      var ch :| Closings(actions, ch) >= 2;
      assert Unsubscribed(actions, ch) >= 2;
    }
    if ch :| Unsubscribed(actions, ch) >= 2 {
      assert ClosingOf(Exec(actions), ch) == 0 ==> Closings(actions, ch) >= 2;
    }
  }

  // ---- delivery ---------------------------------------------------------------------------------

  /** The messages of the offers that did not find the channel full. */
  function Kept<T>(offers: seq<Offer<T>>): seq<T> {
    if offers == [] then []
    else if Last(offers).backlog < 32 then Kept(Front(offers)) + [Last(offers).msg]
    else Kept(Front(offers))
  }

  function Messages<T>(offers: seq<Offer<T>>): seq<T> {
    if offers == [] then [] else Messages(Front(offers)) + [Last(offers).msg]
  }

  ghost predicate Subsequence<T>(xs: seq<T>, ys: seq<T>) {
    exists at: seq<nat> :: Embeds(xs, ys, at)
  }

  ghost predicate Embeds<T>(xs: seq<T>, ys: seq<T>, at: seq<nat>) {
    && |at| == |xs|
    && (forall i | 0 <= i < |at| :: at[i] < |ys| && ys[at[i]] == xs[i])
    && (forall i, j | 0 <= i < j < |at| :: at[i] < at[j])
  }

  ghost predicate Delivers<T>(c: Channel<T>) {
    && c.received + c.queue == Kept(c.offers)
    && |c.queue| <= 32
    && (forall i | 0 <= i < |c.offers| :: c.offers[i].backlog <= 32)
  }

  lemma OfferDelivers<T>(c: Channel<T>, cast: nat, msg: T)
    requires Delivers(c)
    ensures Delivers(Offered(c, cast, msg))
  {
    Snoc(c.offers, Offer(cast, msg, |c.queue|));
    assert c.received + (c.queue + [msg]) == (c.received + c.queue) + [msg];
  }

  lemma ReceiveDelivers<T>(c: Channel<T>)
    requires Delivers(c) && c.queue != []
    ensures Delivers(c.(queue := c.queue[1..], received := c.received + [c.queue[0]]))
  {
    assert (c.received + [c.queue[0]]) + c.queue[1..] == c.received + c.queue;
  }

  lemma {:induction false} ChannelsDeliver<T>(actions: seq<Action<T>>, ch: nat)
    requires ch in Exec(actions).channels
    ensures Delivers(Exec(actions).channels[ch])
  {
    hide Delivers;
    var s, a := Exec(Front(actions)), Last(actions);
    if ch !in s.channels {
      NewChannelDelivers<T>();
    } else {
      ChannelsDeliver(Front(actions), ch);
      var c := s.channels[ch];
      if a.Send? && a.cast in s.casts {
        OfferDelivers(c, a.cast, s.casts[a.cast].msg);
      }
      if a.Receive? && c.queue != [] {
        ReceiveDelivers(c);
      }
      ClosingDelivers(c, Exec(actions).channels[ch]);
    }
  }

  lemma NewChannelDelivers<T>()
    ensures Delivers<T>(NewChannel())
  {
  }

  lemma ClosingDelivers<T>(c: Channel<T>, d: Channel<T>)
    requires Delivers(c)
    ensures d.queue == c.queue && d.received == c.received && d.offers == c.offers ==> Delivers(d)
  {
  }

  lemma EmbedsMore<T>(xs: seq<T>, ys: seq<T>, at: seq<nat>, y: T)
    requires Embeds(xs, ys, at)
    ensures Embeds(xs, ys + [y], at)
    ensures Embeds(xs + [y], ys + [y], at + [|ys|])
  {
    assert forall i | 0 <= i < |at| :: (ys + [y])[at[i]] == ys[at[i]];
  }

  lemma {:induction false} KeptIsSubsequence<T>(offers: seq<Offer<T>>) returns (at: seq<nat>)
    ensures Embeds(Kept(offers), Messages(offers), at)
  {
    if offers == [] {
      at := [];
    } else {
      hide Embeds;
      at := KeptIsSubsequence(Front(offers));
      EmbedsMore(Kept(Front(offers)), Messages(Front(offers)), at, Last(offers).msg);
      if Last(offers).backlog < 32 {
        at := at + [|Messages(Front(offers))|];
      }
    }
  }

  lemma {:induction false} NothingLost<T>(offers: seq<Offer<T>>)
    requires forall i | 0 <= i < |offers| :: offers[i].backlog < 32
    ensures Kept(offers) == Messages(offers)
  {
    if offers != [] {
      assert forall i | 0 <= i < |offers| - 1 :: Front(offers)[i] == offers[i];
      assert Last(offers) == offers[|offers| - 1];
      NothingLost(Front(offers));
    }
  }

  /**
   What a client has received, followed by what is queued for it, is a subsequence of what was offered to it, in order;
   the queue never exceeds 32 messages, only a full queue loses a message, and one that was never full loses none.
   */
  lemma DeliveryInOrder<T>(actions: seq<Action<T>>, ch: nat)
    requires ch in Exec(actions).channels
    ensures var c := Exec(actions).channels[ch];
            && Subsequence(c.received + c.queue, Messages(c.offers))
            && |c.queue| <= 32
            && c.received + c.queue == Kept(c.offers)
            && ((forall i | 0 <= i < |c.offers| :: c.offers[i].backlog < 32) ==>
                  c.received + c.queue == Messages(c.offers))
  {
    ChannelsDeliver(actions, ch);
    var offers := Exec(actions).channels[ch].offers;
    var at := KeptIsSubsequence(offers);
    if forall i | 0 <= i < |offers| :: offers[i].backlog < 32 {
      NothingLost(offers);
    }
  }

  function FirstOf<T>(xs: seq<T>, n: nat): seq<T> {
    if |xs| <= n then xs else xs[..n]
  }

  /** Nothing is lost among the first 32 messages; and until something is read, these are what the queue holds. */
  ghost predicate Fills<T>(c: Channel<T>) {
    && |c.received| + |c.queue| <= |c.offers|
    && (|c.offers| <= 32 ==> c.received + c.queue == Messages(c.offers))
    && (c.received == [] ==> c.queue == FirstOf(Messages(c.offers), 32))
  }

  lemma {:induction false} OfferFills<T>(c: Channel<T>, cast: nat, msg: T)
    requires Fills(c)
    ensures Fills(Offered(c, cast, msg))
  {
    Snoc(c.offers, Offer(cast, msg, |c.queue|));
    OneMessageEach(c.offers);
    FirstOfMore(Messages(c.offers), msg, 32);
    assert c.received + (c.queue + [msg]) == (c.received + c.queue) + [msg];
  }

  lemma FirstOfMore<T>(xs: seq<T>, x: T, n: nat)
    ensures FirstOf(xs + [x], n) == if |xs| < n then FirstOf(xs, n) + [x] else FirstOf(xs, n)
    ensures |FirstOf(xs, n)| == if |xs| <= n then |xs| else n
  {
  }

  lemma {:induction false} OneMessageEach<T>(offers: seq<Offer<T>>)
    ensures |Messages(offers)| == |offers|
  {
    if offers != [] {
      OneMessageEach(Front(offers));
    }
  }

  lemma ReceiveFills<T>(c: Channel<T>)
    requires Fills(c) && c.queue != []
    ensures Fills(c.(queue := c.queue[1..], received := c.received + [c.queue[0]]))
  {
    assert (c.received + [c.queue[0]]) + c.queue[1..] == c.received + c.queue;
  }

  lemma ClosingFills<T>(c: Channel<T>, d: Channel<T>)
    requires Fills(c)
    ensures d.queue == c.queue && d.received == c.received && d.offers == c.offers ==> Fills(d)
  {
  }

  lemma NewChannelFills<T>()
    ensures Fills<T>(NewChannel())
  {
  }

  lemma {:induction false} ChannelsFill<T>(actions: seq<Action<T>>, ch: nat)
    requires ch in Exec(actions).channels
    ensures Fills(Exec(actions).channels[ch])
  {
    hide Fills, Push, CanEnd;
    var s, a := Exec(Front(actions)), Last(actions);
    if ch !in s.channels {
      NewChannelFills<T>();
    } else {
      ChannelsFill(Front(actions), ch);
      var c := s.channels[ch];
      if a.Send? && a.cast in s.casts {
        OfferFills(c, a.cast, s.casts[a.cast].msg);
      }
      if a.Receive? && c.queue != [] {
        ReceiveFills(c);
      }
      ClosingFills(c, Exec(actions).channels[ch]);
    }
  }

  /**
   A client that has been offered at most 32 messages since it subscribed has lost none, whatever it has read; and one
   that has read nothing yet holds exactly the first 32 messages offered to it.
   */
  lemma FirstMessagesAreKept<T>(actions: seq<Action<T>>, ch: nat)
    requires ch in Exec(actions).channels
    ensures var c := Exec(actions).channels[ch];
            && (|c.offers| <= 32 ==> c.received + c.queue == Messages(c.offers))
            && (c.received == [] && |c.offers| > 32 ==>
                  |Messages(c.offers)| == |c.offers| && c.queue == Messages(c.offers)[..32])
  {
    ChannelsFill(actions, ch);
    OneMessageEach(Exec(actions).channels[ch].offers);
  }

  // ---- every client, once -------------------------------------------------------------------------

  function OffersFrom<T>(offers: seq<Offer<T>>, b: nat): nat {
    if offers == [] then 0 else OffersFrom(Front(offers), b) + if Last(offers).cast == b then 1 else 0
  }

  /** A broadcast in progress has been offered once to every client it has visited and is not just about to send to. */
  ghost predicate OfferedOnce<T>(s: State<T>, b: nat) {
    forall ch | ch in s.channels ::
      OffersFrom(s.channels[ch].offers, b) ==
        if b in s.casts && ch in s.casts[b].visited && s.casts[b].current != Some(ch) then 1 else 0
  }

  lemma OneMoreOffer<T>(c: Channel<T>, cast: nat, msg: T, b: nat)
    ensures OffersFrom(Offered(c, cast, msg).offers, b) == OffersFrom(c.offers, b) + if cast == b then 1 else 0
  {
    Snoc(c.offers, Offer(cast, msg, |c.queue|));
  }

  lemma OfferedOnceNext<T>(s: State<T>, a: Action<T>, b: nat)
    requires Safe(s) && OfferedOnce(s, b) && (b in s.casts || b >= s.nextCast)
    requires !(a == End(b) && CanEnd(s, b))
    ensures OfferedOnce(Next(s, a), b)
    ensures b in Next(s, a).casts || b >= Next(s, a).nextCast
  {
    hide OffersFrom, Offered;
    match a
    case Send(cast) =>
      if cast in s.casts && s.casts[cast].current.Some? {
        var ch := s.casts[cast].current.value;
        OneMoreOffer(s.channels[ch], cast, s.casts[cast].msg, b);
      }
    case Subscribe(_) => NoOffersYet<T>(b);
    case _ =>
  }

  lemma NoOffersYet<T>(b: nat)
    ensures OffersFrom<T>([], b) == 0
  {
  }

  /** The broadcast b has been completed at some point of the run. */
  ghost predicate Completed<T>(actions: seq<Action<T>>, b: nat) {
    exists n :: 0 <= n < |actions| && actions[n] == End(b) && CanEnd(Exec(actions[..n]), b)
  }

  lemma StaysCompleted<T>(actions: seq<Action<T>>, b: nat)
    requires actions != [] && Completed(Front(actions), b)
    ensures Completed(actions, b)
  {
    var n :| 0 <= n < |actions| - 1 && Front(actions)[n] == End(b) && CanEnd(Exec(Front(actions)[..n]), b);
    assert Front(actions)[..n] == actions[..n];
    assert actions[n] == End(b);
  }

  lemma {:induction false} OfferedOnceBeforeEnd<T>(actions: seq<Action<T>>, b: nat)
    requires !Completed(actions, b)
    ensures OfferedOnce(Exec(actions), b)
    ensures b in Exec(actions).casts || b >= Exec(actions).nextCast
  {
    if actions != [] {
      hide Safe, OfferedOnce, CanEnd, Next;
      var s, a := Exec(Front(actions)), Last(actions);
      assert !Completed(Front(actions), b) by {
        if Completed(Front(actions), b) {
          StaysCompleted(actions, b);
        }
      }
      assert !(a == End(b) && CanEnd(s, b)) by {
        assert actions[..|actions| - 1] == Front(actions);
        assert actions[|actions| - 1] == a;
      }
      OfferedOnceBeforeEnd(Front(actions), b);
      HubNeverSendsToClosed(Front(actions));
      OfferedOnceNext(s, a, b);
    } else {
      assert OfferedOnce<T>(Initial(), b);
    }
  }

  /** When a broadcast ends, it has been put exactly once to each client, and to no other channel. */
  lemma BroadcastReachesAll<T>(actions: seq<Action<T>>, b: nat)
    requires !Completed(actions, b) && CanEnd(Exec(actions), b)
    ensures var s := Exec(actions);
            forall ch | ch in s.channels :: OffersFrom(s.channels[ch].offers, b) == if ch in s.clients then 1 else 0
  {
    OfferedOnceBeforeEnd(actions, b);
    HubNeverSendsToClosed(actions);
  }

  // ---- the right message ------------------------------------------------------------------------

  /** The messages of all broadcasts begun, in order: the b-th is that of broadcast b. */
  function Begun<T>(actions: seq<Action<T>>): seq<T> {
    if actions == [] then []
    else if Last(actions).Begin? then Begun(Front(actions)) + [Last(actions).msg]
    else Begun(Front(actions))
  }

  ghost predicate CarryMessages<T>(s: State<T>, begun: seq<T>) {
    && s.nextCast == |begun|
    && (forall b | b in s.casts :: b < |begun| && s.casts[b].msg == begun[b])
    && (forall ch | ch in s.channels :: OffersCarry(s.channels[ch].offers, begun))
  }

  ghost predicate OffersCarry<T>(offers: seq<Offer<T>>, begun: seq<T>) {
    forall i | 0 <= i < |offers| :: offers[i].cast < |begun| && offers[i].msg == begun[offers[i].cast]
  }

  lemma CarryNext<T>(s: State<T>, a: Action<T>, begun: seq<T>)
    requires CarryMessages(s, begun)
    ensures CarryMessages(Next(s, a), if a.Begin? then begun + [a.msg] else begun)
  {
    hide CanEnd, Push;
  }

  /** In every interleaving, whatever a client is offered is the message of the broadcast that offers it. */
  lemma {:induction false} OffersCarryTheirMessage<T>(actions: seq<Action<T>>, ch: nat)
    requires ch in Exec(actions).channels
    ensures OffersCarry(Exec(actions).channels[ch].offers, Begun(actions))
  {
    AllCarry(actions);
  }

  lemma {:induction false} AllCarry<T>(actions: seq<Action<T>>)
    ensures CarryMessages(Exec(actions), Begun(actions))
  {
    if actions != [] {
      hide CarryMessages, Next;
      AllCarry(Front(actions));
      CarryNext(Exec(Front(actions)), Last(actions), Begun(Front(actions)));
    }
  }
}
