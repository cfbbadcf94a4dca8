/** The lossy notification hub: pkg/api/events.go. Each client has a bounded channel of messages; a message names
    resources to load again, or "all". Clients receive whenever they like, also in the middle of a broadcast. */
module Notifications {
  const CAPACITY: nat := 32

  const ALL: string := "all"

  type Message = seq<string>

  predicate Covers(m: Message, resource: string) {
    resource in m || ALL in m
  }

  /** What has happened to a client: resources changed and were broadcast, or it received a message. */
  datatype Entry = Changed(resources: Message) | Got(message: Message)

  /** The resources that a client has yet to load again: those that were broadcast, and that no message it received
      since then names. */
  function Pending(history: seq<Entry>): (names: set<string>) {
    if history == [] then {} else
      var before := Pending(history[..|history| - 1]);
      match history[|history| - 1]
      case Changed(resources) => before + (set r | r in resources)
      case Got(message) => set r | r in before && !Covers(message, r)
  }

  /** One history continues another by messages received only. */
  predicate Receives(a: seq<Entry>, b: seq<Entry>) {
    a <= b && forall i :: |a| <= i < |b| ==> b[i].Got?
  }

  class Client {
    /** The channel. */
    var queue: seq<Message>
    var history: seq<Entry>

    constructor ()
      ensures Valid() && Informed() && queue == [] && history == []
    {
      queue, history := [], [];
    }

    ghost predicate Valid()
      reads this
    {
      |queue| <= CAPACITY
    }

    ghost predicate OnItsWay(r: string)
      reads this
    {
      exists i :: 0 <= i < |queue| && Covers(queue[i], r)
    }

    /** For everything the client has yet to load again, except what is only just being broadcast, a message is on its
        way. */
    ghost predicate InformedBut(news: set<string>)
      reads this
    {
      forall r :: r in Pending(history) && r !in news ==> OnItsWay(r)
    }

    ghost predicate Informed()
      reads this
    {
      InformedBut({})
    }

    /** The client takes the oldest message, and loads what it names. */
    method Receive(ghost news: set<string>)
      requires Valid() && queue != []
      modifies this
      ensures Valid() && queue == old(queue)[1..]
      ensures history == old(history) + [Got(old(queue)[0])]
      ensures old(InformedBut(news)) ==> InformedBut(news)
    {
      var m := queue[0];
      queue := queue[1..];
      history := history + [Got(m)];
      assert history[..|history| - 1] == old(history);
      forall r | r in Pending(history) && r !in news && old(OnItsWay(r))
        ensures OnItsWay(r)
      {
        var i :| 0 <= i < |old(queue)| && Covers(old(queue)[i], r);
        assert queue[i - 1] == old(queue)[i];
      }
    }

    /** The client receives some messages, or all there are. */
    method ReceiveSome(count: nat, ghost news: set<string>)
      requires Valid()
      modifies this
      ensures Valid() && Receives(old(history), history)
      ensures var k := if count < |old(queue)| then count else |old(queue)|;
        && queue == old(queue)[k..]
        && |history| == |old(history)| + k
        && forall i :: 0 <= i < k ==> history[|old(history)| + i] == Got(old(queue)[i])
      ensures old(InformedBut(news)) ==> InformedBut(news)
    {
      for k := 0 to count
        invariant Valid() && Receives(old(history), history)
        invariant queue == old(queue)[if k < |old(queue)| then k else |old(queue)|..]
        invariant |history| == |old(history)| + (if k < |old(queue)| then k else |old(queue)|)
        invariant forall i :: 0 <= i < k && i < |old(queue)| ==> history[|old(history)| + i] == Got(old(queue)[i])
        invariant old(InformedBut(news)) ==> InformedBut(news)
      {
        if queue != [] {
          Receive(news);
        }
      }
    }

    /** Send without waiting. */
    method TrySend(m: Message) returns (sent: bool)
      requires Valid()
      modifies this`queue
      ensures Valid() && sent == (|old(queue)| < CAPACITY)
      ensures queue == if sent then old(queue) + [m] else old(queue)
    {
      sent := |queue| < CAPACITY;
      if sent {
        queue := queue + [m];
      }
    }

    /** Receive without waiting; the hub throws the message away. */
    method TryDrop()
      requires Valid()
      modifies this`queue
      ensures Valid() && queue == if old(queue) == [] then [] else old(queue)[1..]
    {
      if queue != [] {
        queue := queue[1..];
      }
    }

    /** What broadcast does for one client. In `pauses` are the messages that the client receives in between. Sending
        "all" into the channel that was full always succeeds. */
    method Notify(resources: Message, pauses: (nat, nat, nat)) returns (overflow: bool)
      requires Valid() && Informed()
      modifies this
      ensures Valid() && Informed()
      ensures Receives(old(history) + [Changed(resources)], history)
      ensures queue != [] && queue[|queue| - 1] == if overflow then [ALL] else resources
      ensures pauses == (0, 0, 0) ==>
        && history == old(history) + [Changed(resources)]
        && overflow == (|old(queue)| == CAPACITY)
        && queue == if overflow then old(queue)[1..] + [[ALL]] else old(queue) + [resources]
    {
      ghost var news := set r | r in resources;
      history := history + [Changed(resources)];
      assert history[..|history| - 1] == old(history);
      assert InformedBut(news);
      ReceiveSome(pauses.0, news);
      assert InformedBut(news);
      ghost var before := queue;
      var sent := TrySend(resources);
      overflow := !sent;
      if sent {
        forall r | r in Pending(history)
          ensures OnItsWay(r)
        {
          if r in resources {
            assert Covers(queue[|queue| - 1], r);
          } else {
            assert exists i :: 0 <= i < |before| && Covers(before[i], r);
            var i :| 0 <= i < |before| && Covers(before[i], r);
            assert queue[i] == before[i];
          }
        }
        return;
      }
      ReceiveSome(pauses.1, news);
      TryDrop();
      ReceiveSome(pauses.2, news);
      var sentAll := TrySend([ALL]);
      assert sentAll;
      forall r | r in Pending(history)
        ensures OnItsWay(r)
      {
        assert Covers(queue[|queue| - 1], r);
      }
    }
  }

  /** The hub and its clients. */
  class Hub {
    var clients: seq<Client>
    /** Whether the resources are being observed. */
    var observing: bool

    constructor ()
      ensures Valid() && clients == [] && !observing
    {
      clients, observing := [], false;
    }

    ghost predicate Valid()
      reads this, clients
    {
      && (forall i, j :: 0 <= i < j < |clients| ==> clients[i] != clients[j])
      && (forall i :: 0 <= i < |clients| ==> clients[i].Valid() && clients[i].Informed())
      && (observing <==> clients != [])
    }

    method Subscribe() returns (client: Client)
      requires Valid()
      modifies this
      ensures Valid() && fresh(client) && clients == old(clients) + [client] && client.history == []
    {
      client := new Client();
      clients := clients + [client];
      observing := true;
    }

    /** What the function that subscribing returns does. */
    method Unsubscribe(i: nat)
      requires Valid() && i < |clients|
      modifies this
      ensures Valid() && clients == old(clients)[..i] + old(clients)[i + 1..]
    {
      clients := clients[..i] + clients[i + 1..];
      if clients == [] {
        observing := false;
      }
    }

    /** Broadcast: every client is told, however its receives fall in between. */
    method Broadcast(resources: Message, pauses: seq<(nat, nat, nat)>)
      requires Valid() && |pauses| == |clients|
      modifies clients
      ensures Valid()
      ensures forall i :: 0 <= i < |clients| ==> Receives(old(clients[i].history) + [Changed(resources)], clients[i].history)
    {
      for i := 0 to |clients|
        invariant Valid()
        invariant forall j :: 0 <= j < i ==> Receives(old(clients[j].history) + [Changed(resources)], clients[j].history)
        invariant forall j :: i <= j < |clients| ==> clients[j].history == old(clients[j].history)
      {
        var overflow := clients[i].Notify(resources, pauses[i]);
      }
    }
  }

  // ---- Whole runs ----

  datatype Event =
    | Broadcasting(resources: Message, pauses: seq<(nat, nat, nat)>)
    | Receiving(client: nat)
    | Subscribing
    | Unsubscribing(client: nat)

  /** One event; `done` are those before it. One that cannot happen does nothing. */
  method Perform(hub: Hub, event: Event, ghost done: seq<Event>) returns (ghost now: seq<Event>)
    requires hub.Valid()
    modifies hub, hub.clients
    ensures hub.Valid() && fresh((set c | c in hub.clients) - old(set c | c in hub.clients))
    ensures now == done + [event]
    ensures event.Broadcasting? ==> hub.clients == old(hub.clients)
    ensures event.Broadcasting? && |event.pauses| == |hub.clients| ==> forall i :: 0 <= i < |hub.clients| ==>
      Receives(old(hub.clients[i].history) + [Changed(event.resources)], hub.clients[i].history)
    ensures event.Receiving? && event.client < |old(hub.clients)| && old(hub.clients[event.client].queue) != [] ==>
      hub.clients == old(hub.clients) && hub.clients[event.client].queue == old(hub.clients[event.client].queue)[1..]
    ensures event.Subscribing? ==> |hub.clients| == |old(hub.clients)| + 1 && hub.clients[..|old(hub.clients)|] == old(hub.clients)
    ensures event.Unsubscribing? && event.client < |old(hub.clients)| ==>
      hub.clients == old(hub.clients)[..event.client] + old(hub.clients)[event.client + 1..]
  {
    now := done + [event];
    match event {
      case Broadcasting(resources, pauses) =>
        if |pauses| == |hub.clients| {
          hub.Broadcast(resources, pauses);
        }
      case Receiving(i) =>
        if i < |hub.clients| && hub.clients[i].queue != [] {
          hub.clients[i].Receive({});
        }
      case Subscribing => var client := hub.Subscribe();
      case Unsubscribing(i) =>
        if i < |hub.clients| {
          hub.Unsubscribe(i);
        }
    }
  }

  /** Every run: for every resource that a client has yet to load again, its channel has a message that names it, or
      "all". */
  method Run(events: seq<Event>) returns (hub: Hub, ghost done: seq<Event>)
    ensures fresh(hub) && hub.Valid() && done == events
    ensures forall i :: 0 <= i < |hub.clients| ==> forall r :: r in Pending(hub.clients[i].history) ==> hub.clients[i].OnItsWay(r)
  {
    hub := new Hub();
    done := [];
    for k := 0 to |events|
      invariant fresh(hub) && fresh(set c | c in hub.clients) && hub.Valid() && done == events[..k]
    {
      done := Perform(hub, events[k], done);
    }
  }
}
