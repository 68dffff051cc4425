/**
  The real-time event service: a registry from topic names to the handlers
  subscribed to them, plus a connection flag. Handlers are callbacks in the
  program, compared by identity; here each is an opaque `HandlerId`, and
  delivering an event is modelled as the set of (handler, payload) calls it
  makes. The periodic location simulation is not modelled, and `publish`
  delivers at once instead of after its random delay.
 */
module Bus {

  type HandlerId = nat

  datatype Bus = Bus(listeners: map<string, set<HandlerId>>, connected: bool)

  /** The handler captured by an unsubscribe closure, with the topic it was registered for. */
  datatype Unsubscriber = Unsubscriber(event: string, handler: HandlerId)

  /** One call of a handler with a payload. */
  datatype Delivery<P> = Delivery(handler: HandlerId, payload: P)

  /** The envelope a publish builds around a payload; `timestamp` is in milliseconds. */
  datatype Message<P> = Message(kind: string, payload: P, timestamp: int)

  /** A fresh, disconnected service with no subscriptions. */
  function Initial(): (b: Bus)
    ensures !b.connected && NoEmptyTopics(b)
    ensures forall e :: Listeners(b, e) == {}
  {
    Bus(map[], false)
  }

  /** A topic stays registered only while someone listens to it. */
  predicate NoEmptyTopics(b: Bus) {
    forall e :: e in b.listeners ==> b.listeners[e] != {}
  }

  /** The handlers registered for `event`; none when the topic is absent. */
  function Listeners(b: Bus, event: string): set<HandlerId> {
    if event in b.listeners then b.listeners[event] else {}
  }

  function Connect(b: Bus): (r: Bus)
    ensures IsConnected(r)
    ensures r.listeners == b.listeners
  {
    b.(connected := true)
  }

  function IsConnected(b: Bus): bool {
    b.connected
  }

  /** Marks the service disconnected and drops every subscription. */
  function Disconnect(b: Bus): (r: Bus)
    ensures !IsConnected(r)
    ensures forall e :: Listeners(r, e) == {}
    ensures NoEmptyTopics(r)
  {
    Bus(map[], false)
  }

  /**
    Registers `handler` for `event` and returns the means to deregister it.
    A handler subscribed twice is still listed once.
   */
  function Subscribe(b: Bus, event: string, handler: HandlerId): (r: (Bus, Unsubscriber))
    ensures Listeners(r.0, event) == Listeners(b, event) + {handler}
    ensures forall e :: e != event ==> Listeners(r.0, e) == Listeners(b, e)
    ensures forall e :: e != event ==> (e in r.0.listeners <==> e in b.listeners)
    ensures r.0.connected == b.connected
    ensures r.1 == Unsubscriber(event, handler)
    ensures NoEmptyTopics(b) ==> NoEmptyTopics(r.0)
  {
    var current := if event in b.listeners then b.listeners[event] else {};
    (b.(listeners := b.listeners[event := current + {handler}]), Unsubscriber(event, handler))
  }

  /**
    Runs an unsubscribe closure: removes its handler from its topic and
    drops the topic once nobody listens. A topic that is no longer
    registered leaves the service unchanged.
   */
  function Unsubscribe(b: Bus, u: Unsubscriber): (r: Bus)
    ensures u.event !in b.listeners ==> r == b
    ensures Listeners(r, u.event) == Listeners(b, u.event) - {u.handler}
    ensures u.event in r.listeners <==> Listeners(r, u.event) != {}
    ensures forall e :: e != u.event ==> (e in b.listeners <==> e in r.listeners)
    ensures forall e :: e != u.event && e in b.listeners ==> r.listeners[e] == b.listeners[e]
    ensures r.connected == b.connected
    ensures NoEmptyTopics(b) ==> NoEmptyTopics(r)
  {
    if u.event in b.listeners then
      var remaining := b.listeners[u.event] - {u.handler};
      if remaining == {} then b.(listeners := b.listeners - {u.event})
      else b.(listeners := b.listeners[u.event := remaining])
    else b
  }

  /** Calls every handler registered for `event` once with `data`; no handler, no call. */
  function Emit<P(==,!new)>(b: Bus, event: string, data: P): (calls: set<Delivery<P>>)
    ensures forall c :: c in calls <==> c.handler in Listeners(b, event) && c.payload == data
    ensures |calls| == |Listeners(b, event)|
  {
    var hs := Listeners(b, event);
    var calls := set h | h in hs :: Delivery(h, data);
    assert |calls| == |hs| by {
      DeliveriesCount(hs, data);
    }
    calls
  }

  /** One delivery per handler: tagging handlers with the same payload keeps the count. */
  lemma {:induction false} DeliveriesCount<P>(hs: set<HandlerId>, data: P)
    ensures |set h | h in hs :: Delivery(h, data)| == |hs|
    decreases |hs|
  {
    if hs != {} {
      var h :| h in hs;
      var rest := hs - {h};
      DeliveriesCount(rest, data);
      assert (set x | x in hs :: Delivery(x, data)) == (set x | x in rest :: Delivery(x, data)) + {Delivery(h, data)};
    }
  }

  /**
    Publishing wraps `data` in a timestamped message but hands handlers the
    payload alone, to the same handlers `Emit` reaches; the connection flag
    is not consulted.
   */
  function Publish<P(==,!new)>(b: Bus, event: string, data: P, now: int): (calls: set<Delivery<P>>)
    ensures forall c :: c in calls <==> c.handler in Listeners(b, event) && c.payload == data
  {
    var message := Message(event, data, now);
    Emit(b, event, message.payload)
  }

  /**
    `isConnected` reports the flag: false at first, set by `connect`,
    cleared by `disconnect`, and left alone by subscribing and
    unsubscribing.
   */
  lemma ConnectionFlag(b: Bus, event: string, handler: HandlerId, u: Unsubscriber)
    ensures !IsConnected(Initial())
    ensures IsConnected(Connect(b)) && !IsConnected(Disconnect(b))
    ensures IsConnected(Subscribe(b, event, handler).0) == IsConnected(b)
    ensures IsConnected(Unsubscribe(b, u)) == IsConnected(b)
  {
  }

  /** Subscribing is idempotent. */
  lemma SubscribeIdempotent(b: Bus, event: string, handler: HandlerId)
    ensures Subscribe(Subscribe(b, event, handler).0, event, handler).0 == Subscribe(b, event, handler).0
  {
  }

  /** A subscribed handler receives what is emitted on its topic. */
  lemma SubscribedHandlerReceives<P(!new)>(b: Bus, event: string, handler: HandlerId, data: P)
    ensures Delivery(handler, data) in Emit(Subscribe(b, event, handler).0, event, data)
  {
  }

  /**
    Subscribing a new handler and then running the returned closure gives
    back the registry as it was.
   */
  lemma SubscribeThenUnsubscribe(b: Bus, event: string, handler: HandlerId)
    requires NoEmptyTopics(b)
    requires handler !in Listeners(b, event)
    ensures var (b1, u) := Subscribe(b, event, handler); Unsubscribe(b1, u) == b
  {
  }

  /** Running an unsubscribe closure a second time changes nothing. */
  lemma UnsubscribeIdempotent(b: Bus, u: Unsubscriber)
    ensures Unsubscribe(Unsubscribe(b, u), u) == Unsubscribe(b, u)
  {
    var once := Unsubscribe(b, u);
    if u.event in once.listeners {
      assert once.listeners[u.event] - {u.handler} == once.listeners[u.event];
      assert once.listeners[u.event := once.listeners[u.event]] == once.listeners;
    }
  }

  /** After a disconnect an emit or publish reaches nobody, and old closures are no-ops. */
  lemma DisconnectSilences<P(!new)>(b: Bus, event: string, data: P, now: int, u: Unsubscriber)
    ensures Emit(Disconnect(b), event, data) == {}
    ensures Publish(Disconnect(b), event, data, now) == {}
    ensures Unsubscribe(Disconnect(b), u) == Disconnect(b)
  {
  }
}
