/**
 internal/api/ws.go: the hub's methods. Each method, run by itself, is a run of the steps of HubProtocol, which also
 says what happens when the methods interleave.
 */
module BroadcastHub {
  import opened Model
  import opened Sequences
  import P = HubProtocol

  /** A buffered channel of capacity 32. */
  class Channel<T> {
    ghost const id: nat
    var queue: seq<T>
    var closed: bool

    constructor (ghost id: nat)
      ensures this.id == id && queue == [] && !closed
    {
      this.id := id;
      queue, closed := [], false;
    }
  }

  class Hub<T(==)> {
    var clients: set<Channel<T>>

    /** Every channel the hub has made, the protocol steps taken so far, and the state they lead to. */
    ghost var made: map<nat, Channel<T>>
    ghost var actions: seq<P.Action<T>>
    ghost var state: P.State<T>
    ghost var nextID: nat

    ghost predicate Valid()
      reads this, made.Values
    {
      && Consistent()
      && state.casts == map[] && Mirrored()
    }

    /** The state is that of the steps taken, and knows the same channels. */
    ghost predicate Consistent()
      reads this
    {
      && IsExec(actions, state)
      && made.Keys == state.channels.Keys && state.clients <= state.channels.Keys
      && (forall id | id in made :: made[id].id == id && id < nextID)
      && (forall ch | ch in clients :: ch.id in made && made[ch.id] == ch)
    }

    constructor ()
      ensures Valid() && clients == {} && actions == []
    {
      clients, made, actions, state, nextID := {}, map[], [], P.Initial(), 0;
    }

    method Subscribe() returns (ch: Channel<T>)
      requires Valid()
      modifies this
      ensures fresh(ch) && ch.queue == [] && !ch.closed
      ensures clients == old(clients) + {ch} && made == old(made)[ch.id := ch]
      ensures actions == old(actions) + [P.Subscribe(ch.id)]
      ensures Valid()
    {
      hide IsExec;
      ch := new Channel(nextID);
      Note(P.Subscribe(ch.id));
      Register(ch);
    }

    method Register(ch: Channel<T>)
      requires IsExec(actions, state) && ch.id in state.channels && ch.id in state.clients
      requires state.channels[ch.id] == P.NewChannel() && ch.queue == [] && !ch.closed && ch.id == nextID
      requires state.casts == map[]
      requires made.Keys == state.channels.Keys - {ch.id} && state.clients <= state.channels.Keys
      requires forall id | id in made :: made[id].id == id && id < nextID
      requires forall other | other in clients :: other.id in made && made[other.id] == other
      requires Mirrored()
      modifies this`clients, this`made, this`nextID
      ensures clients == old(clients) + {ch} && made == old(made)[ch.id := ch]
      ensures Valid()
    {
      hide IsExec;
      clients := clients + {ch};
      made, nextID := made[ch.id := ch], nextID + 1;
    }

    /**
     Takes the channel off the register and closes it. Closing a channel that is closed already is a run-time error in
     Go, reported here by the result; everything else is as if the second call had not been made.
     */
    method Unsubscribe(ch: Channel<T>) returns (panicked: bool)
      requires Valid()
      requires ch.id in made && made[ch.id] == ch
      modifies this`clients, this`actions, this`state, ch
      ensures panicked <==> old(ch.closed)
      ensures ch.closed && ch.queue == old(ch.queue)
      ensures clients == old(clients) - {ch}
      ensures state.closedAgain <==> old(state.closedAgain) || panicked
      ensures actions == old(actions) + [P.Withdraw(ch.id), P.Close(ch.id)]
      ensures Valid()
    {
      hide IsExec;
      Leave(ch.id);
      assert forall other | other in made && other != ch.id :: made[other] != ch;
      clients := clients - {ch};
      panicked := ch.closed;
      ch.closed := true;
    }

    ghost method Leave(id: nat)
      requires IsExec(actions, state) && state.casts == map[] && id in state.channels
      modifies this`actions, this`state
      ensures IsExec(actions, state) && actions == old(actions) + [P.Withdraw(id), P.Close(id)]
      ensures state.casts == map[] && state.clients == old(state.clients) - {id}
      ensures state.channels == old(state.channels[id := state.channels[id].(closed := true)])
      ensures state.closedAgain <==> old(state.closedAgain || state.channels[id].closed)
    {
      hide IsExec, P.Next;
      P.WithdrawThenClose(state, id);
      Note(P.Withdraw(id));
      Note(P.Close(id));
    }

    /** The registered channels are the open ones, and the state knows the content of each. */
    ghost predicate Mirrored()
      reads this, made.Values
    {
      forall id | id in made ::
        && Mirrors(state, id, made[id].queue, made[id].closed, made[id] in clients)
        && (made[id] in clients <==> !made[id].closed)
    }

    /** In the middle of a broadcast that has been through with the visited clients. */
    ghost predicate Casting(b: nat, msg: T, visited: set<nat>)
      reads this, made.Values
    {
      && Consistent() && Mirrored()
      && state.casts == map[b := P.Cast(msg, visited, None)]
    }

    /** Puts a message to every client; a client whose queue is full does without. */
    method Broadcast(msg: T)
      requires Valid()
      modifies this`actions, this`state, made.Values
      ensures Valid()
      ensures forall id | id in made ::
                made[id].queue ==
                if made[id] in clients && |old(made[id].queue)| < 32 then old(made[id].queue) + [msg]
                else old(made[id].queue)
    {
      hide IsExec, Casting, P.Push, P.Next;
      ghost var b := state.nextCast;
      Begin(msg);
      ghost var visited: set<nat> := {};
      var rest := clients;
      while rest != {}
        invariant rest <= clients && Casting(b, msg, visited)
        invariant forall ch | ch in clients :: ch.id in made && made[ch.id] == ch
        invariant forall id | id in made :: made[id].id == id && (id in visited <==> made[id] in clients - rest)
        invariant forall id | id in made ::
                    made[id].queue == if id in visited then P.Push(old(made[id].queue), msg) else old(made[id].queue)
      {
        var ch :| ch in rest;
        Offer(ch, msg, b, visited);
        visited := visited + {ch.id};
        rest := rest - {ch};
      }
      End(b, msg, visited);
      P.PushKeepsUpTo32(msg);
    }

    /** One turn of the loop: a send that does not wait. */
    method Offer(ch: Channel<T>, msg: T, ghost b: nat, ghost visited: set<nat>)
      requires Casting(b, msg, visited)
      requires ch in clients && ch.id !in visited
      modifies this`actions, this`state, ch`queue
      ensures Casting(b, msg, visited + {ch.id})
      ensures actions == old(actions) + [P.Pick(b, ch.id), P.Send(b)]
      ensures ch.queue == P.Push(old(ch.queue), msg)
    {
      hide IsExec;
      Send(ch.id, msg, b, visited);
      assert forall other | other in made && other != ch.id :: made[other] != ch;
      if |ch.queue| < P.CAPACITY {
        ch.queue := ch.queue + [msg];
      }
    }

    ghost method Send(id: nat, msg: T, b: nat, visited: set<nat>)
      requires IsExec(actions, state) && state.casts == map[b := P.Cast(msg, visited, None)]
      requires id in state.clients && id !in visited && id in state.channels && !state.channels[id].closed
      modifies this`actions, this`state
      ensures IsExec(actions, state) && actions == old(actions) + [P.Pick(b, id), P.Send(b)]
      ensures state.casts == map[b := P.Cast(msg, visited + {id}, None)] && state.clients == old(state.clients)
      ensures state.channels == old(state.channels[id := P.Offered(state.channels[id], b, msg)])
    {
      hide IsExec, P.Next;
      P.PickThenSend(state, b, msg, visited, id);
      Note(P.Pick(b, id));
      Note(P.Send(b));
    }

    ghost method Begin(msg: T)
      requires Valid()
      modifies this`actions, this`state
      ensures Casting(old(state.nextCast), msg, {})
      ensures actions == old(actions) + [P.Begin(msg)]
    {
      hide IsExec;
      Note(P.Begin(msg));
    }

    ghost method End(b: nat, msg: T, visited: set<nat>)
      requires Casting(b, msg, visited)
      requires forall id | id in made :: id in visited <==> made[id] in clients
      modifies this`actions, this`state
      ensures Valid()
      ensures actions == old(actions) + [P.End(b)]
    {
      hide IsExec;
      Note(P.End(b));
      assert state.casts == map[];
    }

    /** The client's side: takes the oldest message, if there is one. */
    method Receive(ch: Channel<T>) returns (msg: Option<T>)
      requires Valid()
      requires ch.id in made && made[ch.id] == ch
      modifies this`actions, this`state, ch
      ensures Valid()
      ensures actions == old(actions) + [P.Receive(ch.id)]
      ensures if old(ch.queue) == [] then msg == None && ch.queue == []
              else msg == Some(old(ch.queue)[0]) && ch.queue == old(ch.queue)[1..]
      ensures ch.closed == old(ch.closed)
    {
      hide IsExec;
      Note(P.Receive(ch.id));
      if ch.queue == [] {
        return None;
      }
      msg := Some(ch.queue[0]);
      ch.queue := ch.queue[1..];
    }

    ghost method Note(a: P.Action<T>)
      requires IsExec(actions, state)
      modifies this`actions, this`state
      ensures actions == old(actions) + [a] && state == P.Next(old(state), a)
      ensures IsExec(actions, state)
    {
      Snoc(actions, a);
      state := P.Next(state, a);
      actions := actions + [a];
    }
  }

  ghost predicate IsExec<T>(actions: seq<P.Action<T>>, s: P.State<T>) {
    s == P.Exec(actions)
  }

  /** The state has the channel with this content, and counts it among the clients or not. */
  ghost predicate Mirrors<T>(s: P.State<T>, id: nat, queue: seq<T>, closed: bool, client: bool) {
    && id in s.channels
    && s.channels[id].queue == queue && s.channels[id].closed == closed
    && (client <==> id in s.clients)
  }
}
