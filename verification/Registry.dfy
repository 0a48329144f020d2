/**
 The in-process registry of open sockets, changed in place by coroutines that
 interleave whenever one of them awaits.
 */
module Registry {
  import Sets

  /** Sockets are compared by identity. */
  type Socket = int

  type Connections = map<int, set<Socket>>

  function SocketsOf(c: Connections, user: int): set<Socket> {
    if user in c then c[user] else {}
  }

  predicate Registered(c: Connections, user: int, socket: Socket) {
    socket in SocketsOf(c, user)
  }

  predicate NoEmptySets(c: Connections) {
    forall user :: user in c ==> c[user] != {}
  }

  datatype Event = Connect(user: int, socket: Socket) | Disconnect(user: int, socket: Socket)

  /** One synchronous stretch of registry code. */
  function After(c: Connections, e: Event): Connections {
    match e
    case Connect(user, socket) => c[user := SocketsOf(c, user) + {socket}]
    case Disconnect(user, socket) =>
      if SocketsOf(c, user) == {} then c
      else if SocketsOf(c, user) == {socket} then c - {user}
      else c[user := c[user] - {socket}]
  }

  function Replay(history: seq<Event>): Connections {
    if history == [] then map[] else After(Replay(history[..|history| - 1]), history[|history| - 1])
  }

  /** An event touches the one socket it names, whatever became of the user's set in between. */
  lemma EventTouchesOneSocket(c: Connections, e: Event, user: int, socket: Socket)
    ensures Registered(After(c, e), user, socket) <==>
            if e.user == user && e.socket == socket then e.Connect? else Registered(c, user, socket)
    ensures NoEmptySets(c) ==> NoEmptySets(After(c, e))
  {
  }

  /** The last event about a socket connects it. */
  ghost predicate ConnectedLast(history: seq<Event>, user: int, socket: Socket) {
    exists i :: 0 <= i < |history| && history[i] == Connect(user, socket) &&
                forall j :: i < j < |history| ==> history[j] != Disconnect(user, socket)
  }

  /** The registry is the sockets connected minus those disconnected or dropped since, with no empty entry. */
  lemma {:induction false} ReplayExact(history: seq<Event>, user: int, socket: Socket)
    ensures Registered(Replay(history), user, socket) <==> ConnectedLast(history, user, socket)
    ensures NoEmptySets(Replay(history))
  {
    if history != [] {
      var before, e := history[..|history| - 1], history[|history| - 1];
      ReplayExact(before, user, socket);
      EventTouchesOneSocket(Replay(before), e, user, socket);
      if ConnectedLast(before, user, socket) && e != Disconnect(user, socket) {
        var i :| 0 <= i < |before| && before[i] == Connect(user, socket) &&
                 forall j :: i < j < |before| ==> before[j] != Disconnect(user, socket);
        assert history[i] == Connect(user, socket);
      }
      if ConnectedLast(history, user, socket) {
        var i :| 0 <= i < |history| && history[i] == Connect(user, socket) &&
                 forall j :: i < j < |history| ==> history[j] != Disconnect(user, socket);
        if i < |before| {
          assert before[i] == Connect(user, socket);
          assert history[|before|] != Disconnect(user, socket);
        }
      }
    }
  }

  lemma ReplayAppend(history: seq<Event>, e: Event)
    ensures Replay(history + [e]) == After(Replay(history), e)
  {
    assert (history + [e])[..|history|] == history;
  }

  /** What happens while one send is awaited: other coroutines' registry events, then success or failure. */
  datatype Await = Await(during: seq<Event>, sent: bool)

  /** The registry events of one send: those of others meanwhile, and a disconnect if it fails. */
  function SendEvents(user: int, socket: Socket, w: Await): seq<Event> {
    w.during + if w.sent then [] else [Disconnect(user, socket)]
  }

  /** The registry events of a push, send by send. */
  function PushEvents(user: int, order: seq<Socket>, awaits: seq<Await>): seq<Event>
    requires |order| <= |awaits|
  {
    if order == [] then []
    else
      var k := |order| - 1;
      PushEvents(user, order[..k], awaits) + SendEvents(user, order[k], awaits[k])
  }

  function Successes(awaits: seq<Await>): nat {
    if awaits == [] then 0
    else Successes(awaits[..|awaits| - 1]) + if awaits[|awaits| - 1].sent then 1 else 0
  }

  function Failures(awaits: seq<Await>): nat {
    if awaits == [] then 0
    else Failures(awaits[..|awaits| - 1]) + if awaits[|awaits| - 1].sent then 0 else 1
  }

  lemma PushEventsExtend(history: seq<Event>, user: int, order: seq<Socket>, socket: Socket, awaits: seq<Await>)
    requires |order| < |awaits|
    ensures history + PushEvents(user, order + [socket], awaits) ==
            history + PushEvents(user, order, awaits) + SendEvents(user, socket, awaits[|order|])
  {
    assert (order + [socket])[..|order|] == order;
  }

  lemma SuccessesExtend(awaits: seq<Await>, k: nat)
    requires k < |awaits|
    ensures Successes(awaits[..k + 1]) == Successes(awaits[..k]) + if awaits[k].sent then 1 else 0
  {
    assert awaits[..k + 1][..k] == awaits[..k];
  }

  lemma {:induction false} SentOrDropped(awaits: seq<Await>)
    ensures Successes(awaits) + Failures(awaits) == |awaits|
  {
    if awaits != [] {
      SentOrDropped(awaits[..|awaits| - 1]);
    }
  }

  /** A socket whose send failed is gone unless an event after the failure connects it again. */
  lemma {:induction false} FailedSendIsDropped(user: int, order: seq<Socket>, awaits: seq<Await>, history: seq<Event>, k: nat)
    requires k < |order| <= |awaits| && !awaits[k].sent
    requires forall i :: k < i < |order| ==> Connect(user, order[k]) !in awaits[i].during
    ensures !Registered(Replay(history + PushEvents(user, order, awaits)), user, order[k])
    decreases |order|
  {
    var last := |order| - 1;
    var before := history + PushEvents(user, order[..last], awaits);
    var tail := SendEvents(user, order[last], awaits[last]);
    assert history + PushEvents(user, order, awaits) == before + tail;
    if k < last {
      assert order[..last][k] == order[k];
      FailedSendIsDropped(user, order[..last], awaits, history, k);
      StaysOut(before, tail, user, order[k]);
    } else {
      assert before + tail == (before + awaits[last].during) + [Disconnect(user, order[k])];
      ReplayAppend(before + awaits[last].during, Disconnect(user, order[k]));
    }
  }

  lemma {:induction false} StaysOut(history: seq<Event>, more: seq<Event>, user: int, socket: Socket)
    requires !Registered(Replay(history), user, socket)
    requires Connect(user, socket) !in more
    ensures !Registered(Replay(history + more), user, socket)
  {
    if more == [] {
      assert history + more == history;
    } else {
      var k := |more| - 1;
      StaysOut(history, more[..k], user, socket);
      assert history + more == (history + more[..k]) + [more[k]];
      ReplayAppend(history + more[..k], more[k]);
      EventTouchesOneSocket(Replay(history + more[..k]), more[k], user, socket);
    }
  }

  class ConnectionManager {
    var connections: Connections
    ghost var history: seq<Event>

    ghost predicate Valid()
      reads this
    {
      connections == Replay(history)
    }

    constructor ()
      ensures Valid() && history == [] && connections == map[]
    {
      connections := map[];
      history := [];
    }

    /** The part of connecting that follows the accepted handshake. */
    method Connect(user: int, socket: Socket)
      requires Valid()
      modifies this
      ensures Valid() && history == old(history) + [Event.Connect(user, socket)]
    {
      if user !in connections {
        connections := connections[user := {}];
      }
      connections := connections[user := connections[user] + {socket}];
      ReplayAppend(history, Event.Connect(user, socket));
      history := history + [Event.Connect(user, socket)];
    }

    method Disconnect(user: int, socket: Socket)
      requires Valid()
      modifies this
      ensures Valid() && history == old(history) + [Event.Disconnect(user, socket)]
    {
      ReplayAppend(history, Event.Disconnect(user, socket));
      history := history + [Event.Disconnect(user, socket)];
      if user in connections && connections[user] != {} {
        connections := connections[user := connections[user] - {socket}];
        if connections[user] == {} {
          connections := connections - {user};
        }
      }
    }

    /** Other coroutines at work while this one awaits. */
    method Interfere(events: seq<Event>)
      requires Valid()
      modifies this
      ensures Valid() && history == old(history) + events
    {
      for k := 0 to |events|
        invariant Valid() && history == old(history) + events[..k]
      {
        match events[k] {
          case Connect(user, socket) => Connect(user, socket);
          case Disconnect(user, socket) => Disconnect(user, socket);
        }
      }
    }

    /** One awaited send: others work meanwhile, and a failure drops the socket. */
    method Send(user: int, socket: Socket, w: Await)
      requires Valid()
      modifies this
      ensures Valid()
      ensures history == old(history) + SendEvents(user, socket, w)
    {
      Interfere(w.during);
      if !w.sent {
        Disconnect(user, socket);
      }
    }

    /**
     Send to every socket registered when the push starts. `order` is the order the
     snapshot was walked in; the k-th send lives through `awaits[k]`.
     */
    method PushToUser(user: int, awaits: seq<Await>) returns (delivered: nat, order: seq<Socket>)
      requires Valid()
      requires |awaits| == |SocketsOf(connections, user)|
      modifies this
      ensures Valid()
      ensures |order| == |awaits| && forall s :: s in order <==> s in old(SocketsOf(connections, user))
      ensures history == old(history) + PushEvents(user, order, awaits)
      ensures delivered == Successes(awaits) && delivered + Failures(awaits) == |old(SocketsOf(connections, user))|
    {
      var snapshot := SocketsOf(connections, user);
      var waiting := snapshot;
      delivered, order := 0, [];
      while waiting != {}
        invariant Valid()
        invariant waiting <= snapshot
        invariant |order| + |waiting| == |awaits|
        invariant forall s :: s in order <==> s in snapshot && s !in waiting
        invariant history == old(history) + PushEvents(user, order, awaits)
        invariant delivered == Successes(awaits[..|order|])
        decreases |waiting|
      {
        var socket := Sets.Pick(waiting);
        var k := |order|;
        Send(user, socket, awaits[k]);
        if awaits[k].sent {
          delivered := delivered + 1;
        }
        PushEventsExtend(old(history), user, order, socket, awaits);
        SuccessesExtend(awaits, k);
        waiting := waiting - {socket};
        order := order + [socket];
      }
      assert awaits[..|order|] == awaits;
      SentOrDropped(awaits);
    }

    method ConnectionCount(user: int) returns (n: nat)
      requires Valid()
      ensures n == |SocketsOf(connections, user)|
    {
      n := if user in connections then |connections[user]| else 0;
    }
  }
}
