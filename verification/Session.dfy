/**
 The QoS 1 session of the Tokio client as a distributed protocol (crates/mqtt-tokio/src/eventloop.rs):
 client, broker and two FIFO links that lose everything whenever the connection drops.
 */
module Session {
  import opened Bytes
  import opened PacketIds
  import P = Publishing

  type PublishMessage = P.PublishMessage

  // ---- The client's bookkeeping, shared with the event loop ----

  /** `next_packet_id` and `inflight_publishes`. */
  datatype Client<M> = Client(nextId: u16, inflight: map<u16, M>)

  /** A publish is accepted under the next identifier. */
  function Accept<M>(c: Client<M>, m: M): Client<M> {
    Client(NextId(c.nextId), c.inflight[c.nextId := m])
  }

  /** An identifier goes to something else, a subscription for example. */
  function Skip<M>(c: Client<M>): Client<M> {
    c.(nextId := NextId(c.nextId))
  }

  function Acknowledge<M>(c: Client<M>, id: u16): Client<M> {
    c.(inflight := c.inflight - {id})
  }

  // ---- The whole system ----

  /** An accepted message; the ticket is the number of identifiers allocated before it. */
  datatype Msg = Msg(ticket: nat, content: PublishMessage)

  /** A PUBLISH under way. */
  datatype Sent = Sent(id: u16, msg: Msg, dup: bool)

  datatype System = System(
    client: Client<Msg>,
    allocations: nat,
    connected: bool,
    toBroker: seq<Sent>,
    toClient: seq<u16>,
    received: seq<Msg>,
    accepted: set<Msg>,
    notified: set<Msg>,
    reconnects: nat)

  datatype Event =
    | Publish(content: PublishMessage)
    | Allocate
    | BrokerReceives
    | ClientReceives
    | Drop
    | Reconnect(order: seq<u16>)

  function Initial(): System {
    System(Client(1, map[]), 0, true, [], [], [], {}, {}, 0)
  }

  /** `order` lists every key once, in any order: what iterating over a hash map gives. */
  ghost predicate Lists<K, M>(order: seq<K>, m: map<K, M>) {
    multiset(order) == multiset(m.Keys)
  }

  ghost predicate Enabled(s: System, e: Event) {
    match e
    case Publish(_) => s.connected
    case Allocate => s.connected
    case BrokerReceives => s.connected && s.toBroker != []
    case ClientReceives => s.connected && s.toClient != []
    case Drop => s.connected
    case Reconnect(order) => !s.connected && Lists(order, s.client.inflight)
  }

  /** The in-flight messages, sent again under their identifiers with DUP set. */
  function Resent(order: seq<u16>, inflight: map<u16, Msg>): (q: seq<Sent>)
    requires forall id :: id in order ==> id in inflight
    ensures |q| == |order|
    ensures forall i :: 0 <= i < |q| ==> q[i] == Sent(order[i], inflight[order[i]], true)
  {
    if order == [] then []
    else [Sent(order[0], inflight[order[0]], true)] + Resent(order[1..], inflight)
  }

  lemma ListedIsKey<K, M>(order: seq<K>, m: map<K, M>, id: K)
    requires Lists(order, m)
    ensures id in order <==> id in m
  {
    assert id in order <==> id in multiset(order);
    assert id in m.Keys <==> id in multiset(m.Keys);
  }

  ghost function Next(s: System, e: Event): System
    requires Enabled(s, e)
  {
    match e
    case Publish(content) =>
      var m, id := Msg(s.allocations, content), s.client.nextId;
      s.(client := Accept(s.client, m), allocations := s.allocations + 1,
         toBroker := s.toBroker + [Sent(id, m, false)], accepted := s.accepted + {m})
    case Allocate => s.(client := Skip(s.client), allocations := s.allocations + 1)
    case BrokerReceives =>
      var p := s.toBroker[0];
      s.(toBroker := s.toBroker[1..], toClient := s.toClient + [p.id], received := s.received + [p.msg])
    case ClientReceives =>
      var id := s.toClient[0];
      s.(toClient := s.toClient[1..], client := Acknowledge(s.client, id),
         notified := s.notified + (if id in s.client.inflight then {s.client.inflight[id]} else {}))
    case Drop => s.(connected := false, toBroker := [], toClient := [])
    case Reconnect(order) =>
      assert forall id :: id in order ==> id in s.client.inflight by {
        forall id | id in order ensures id in s.client.inflight { ListedIsKey(order, s.client.inflight, id); }
      }
      s.(connected := true, toBroker := Resent(order, s.client.inflight), reconnects := s.reconnects + 1)
  }

  /** A publish does not overwrite an unacknowledged message. */
  predicate Fresh(s: System, e: Event) {
    e.Publish? ==> s.client.nextId !in s.client.inflight
  }

  /** Every event of the run can happen, and no publish overwrites a message in flight. */
  ghost predicate Runs(s: System, events: seq<Event>)
    decreases |events|
  {
    events == [] || (Enabled(s, events[0]) && Fresh(s, events[0]) && Runs(Next(s, events[0]), events[1..]))
  }

  ghost function After(s: System, events: seq<Event>): System
    requires Runs(s, events)
    decreases |events|
  {
    if events == [] then s else After(Next(s, events[0]), events[1..])
  }

  // ---- Invariant ----

  function Ids(q: seq<Sent>): (ids: seq<u16>)
    ensures |ids| == |q|
    ensures forall i :: 0 <= i < |q| ==> ids[i] == q[i].id
  {
    if q == [] then [] else [q[0].id] + Ids(q[1..])
  }

  lemma {:induction false} IdsAppend(a: seq<Sent>, b: seq<Sent>)
    ensures Ids(a + b) == Ids(a) + Ids(b)
  {
  }

  /** Each in-flight identifier has exactly one PUBLISH or PUBACK under way, and no other identifier has any. */
  ghost predicate OneInTransit(s: System) {
    if s.connected then multiset(Ids(s.toBroker)) + multiset(s.toClient) == multiset(s.client.inflight.Keys)
    else s.toBroker == [] && s.toClient == []
  }

  predicate Outstanding(s: System, m: Msg) {
    IdOf(m.ticket) in s.client.inflight && s.client.inflight[IdOf(m.ticket)] == m
  }

  /** The bookkeeping is in step with the allocations. */
  ghost predicate Bookkept(s: System) {
    && s.client.nextId == IdOf(s.allocations)
    && (forall id :: id in s.client.inflight ==>
          var m := s.client.inflight[id]; IdOf(m.ticket) == id && m in s.accepted)
    && (forall m :: m in s.accepted ==> m.ticket < s.allocations)
  }

  /** What is under way is what is in flight, and an acknowledgement comes from a broker that has the message. */
  ghost predicate TransitIsGenuine(s: System) {
    && (forall p :: p in s.toBroker ==> p.id in s.client.inflight && s.client.inflight[p.id] == p.msg)
    && (forall id :: id in s.toClient ==> id in s.client.inflight && s.client.inflight[id] in s.received)
  }

  /** No accepted message is lost, none is invented, and callers are told only of messages the broker has. */
  ghost predicate NoLoss(s: System) {
    && (forall m :: m in s.accepted ==> m in s.received || Outstanding(s, m))
    && (forall m :: m in s.received ==> m in s.accepted)
    && (forall m :: m in s.notified ==> m in s.received)
  }

  ghost predicate Inv(s: System) {
    OneInTransit(s) && Bookkept(s) && TransitIsGenuine(s) && NoLoss(s)
  }

  lemma InitialInv()
    ensures Inv(Initial())
  {
  }

  lemma KeysInsert<M>(m: map<u16, M>, id: u16, v: M)
    requires id !in m
    ensures multiset(m[id := v].Keys) == multiset(m.Keys) + multiset{id}
  {
    assert m[id := v].Keys == m.Keys + {id};
  }

  lemma KeysRemove<M>(m: map<u16, M>, id: u16)
    requires id in m
    ensures multiset((m - {id}).Keys) == multiset(m.Keys) - multiset{id}
  {
    assert (m - {id}).Keys == m.Keys - {id};
  }

  lemma PublishKeepsTransit(s: System, content: PublishMessage)
    requires OneInTransit(s) && s.connected && Fresh(s, Publish(content))
    ensures OneInTransit(Next(s, Publish(content)))
  {
    var m, id := Msg(s.allocations, content), s.client.nextId;
    IdsAppend(s.toBroker, [Sent(id, m, false)]);
    KeysInsert(s.client.inflight, id, m);
  }

  lemma BrokerReceivesKeepsTransit(s: System)
    requires OneInTransit(s) && Enabled(s, BrokerReceives)
    ensures OneInTransit(Next(s, BrokerReceives))
  {
    var p := s.toBroker[0];
    assert s.toBroker == [p] + s.toBroker[1..];
    assert Ids(s.toBroker) == [p.id] + Ids(s.toBroker[1..]);
  }

  lemma ClientReceivesKeepsTransit(s: System)
    requires OneInTransit(s) && Enabled(s, ClientReceives)
    ensures OneInTransit(Next(s, ClientReceives)) && s.toClient[0] in s.client.inflight
  {
    var id := s.toClient[0];
    assert s.toClient == [id] + s.toClient[1..];
    assert id in multiset(s.toClient);
    assert id in multiset(s.client.inflight.Keys);
    KeysRemove(s.client.inflight, id);
  }

  lemma ReconnectKeepsTransit(s: System, order: seq<u16>)
    requires OneInTransit(s) && Enabled(s, Reconnect(order))
    ensures OneInTransit(Next(s, Reconnect(order)))
  {
    assert Ids(Next(s, Reconnect(order)).toBroker) == order;
  }

  lemma StepKeepsTransit(s: System, e: Event)
    requires OneInTransit(s) && Enabled(s, e) && Fresh(s, e)
    ensures OneInTransit(Next(s, e))
  {
    match e
    case Publish(content) => PublishKeepsTransit(s, content);
    case BrokerReceives => BrokerReceivesKeepsTransit(s);
    case ClientReceives => ClientReceivesKeepsTransit(s);
    case Reconnect(order) => ReconnectKeepsTransit(s, order);
    case Allocate =>
    case Drop =>
  }

  lemma StepKeepsBooks(s: System, e: Event)
    requires Bookkept(s) && Enabled(s, e)
    ensures Bookkept(Next(s, e))
  {
    AllocationsCount(s.allocations);
    hide IdOf, NextId, Lists;
  }

  /** An acknowledged identifier has nothing else under way. */
  lemma AcknowledgedIsAlone(s: System, id: u16)
    requires OneInTransit(s) && Enabled(s, ClientReceives) && id == s.toClient[0]
    ensures id !in s.toClient[1..] && forall p :: p in s.toBroker ==> p.id != id
  {
    assert s.toClient == [id] + s.toClient[1..];
    var rest := multiset(Ids(s.toBroker)) + multiset(s.toClient[1..]);
    assert multiset(s.client.inflight.Keys) == rest + multiset{id};
    assert multiset(s.client.inflight.Keys)[id] <= 1;
    assert id !in rest;
    assert id in s.toClient[1..] <==> id in multiset(s.toClient[1..]);
    forall i | 0 <= i < |s.toBroker| ensures s.toBroker[i].id != id {
      assert Ids(s.toBroker)[i] in multiset(Ids(s.toBroker));
    }
  }

  lemma StepKeepsGenuine(s: System, e: Event)
    requires OneInTransit(s) && TransitIsGenuine(s) && Enabled(s, e) && Fresh(s, e)
    ensures TransitIsGenuine(Next(s, e))
  {
    match e
    case ClientReceives => AcknowledgedIsAlone(s, s.toClient[0]);
    case Reconnect(order) =>
      forall id | id in order ensures id in s.client.inflight { ListedIsKey(order, s.client.inflight, id); }
    case Publish(_) =>
    case BrokerReceives =>
    case Allocate =>
    case Drop =>
  }

  /** No step but a receipt or an overwriting publish takes a message out of the client. */
  lemma StepKeepsOutstanding(s: System, e: Event, m: Msg)
    requires Bookkept(s) && TransitIsGenuine(s) && Enabled(s, e) && Fresh(s, e)
    requires m in s.received || Outstanding(s, m)
    ensures m in Next(s, e).received || Outstanding(Next(s, e), m)
  {
    hide IdOf, Lists;
  }

  lemma StepKeepsNoLoss(s: System, e: Event)
    requires Bookkept(s) && TransitIsGenuine(s) && NoLoss(s) && Enabled(s, e) && Fresh(s, e)
    ensures NoLoss(Next(s, e))
  {
    var t := Next(s, e);
    forall m | m in t.accepted ensures m in t.received || Outstanding(t, m) {
      if m in s.accepted {
        StepKeepsOutstanding(s, e, m);
      }
    }
    hide IdOf, Lists, NextId;
  }

  lemma StepKeepsInv(s: System, e: Event)
    requires Inv(s) && Enabled(s, e) && Fresh(s, e)
    ensures Inv(Next(s, e))
  {
    StepKeepsTransit(s, e);
    StepKeepsBooks(s, e);
    StepKeepsGenuine(s, e);
    StepKeepsNoLoss(s, e);
    hide Next, OneInTransit, Bookkept, TransitIsGenuine, NoLoss;
  }

  /** Safety over every run. */
  lemma {:induction false} RunsKeepInv(s: System, events: seq<Event>)
    requires Inv(s) && Runs(s, events)
    ensures Inv(After(s, events))
    decreases |events|
  {
    hide Inv, Next;
    if events != [] {
      StepKeepsInv(s, events[0]);
      RunsKeepInv(Next(s, events[0]), events[1..]);
    }
  }

  /** At-least-once delivery, from the start of a session and over every run. */
  lemma AtLeastOnce(events: seq<Event>)
    requires Runs(Initial(), events)
    ensures var s := After(Initial(), events);
            && (forall m :: m in s.accepted ==> m in s.received || Outstanding(s, m))
            && (forall m :: m in s.received ==> m in s.accepted)
            && (forall m :: m in s.notified ==> m in s.received)
  {
    InitialInv();
    RunsKeepInv(Initial(), events);
  }

  // ---- Delivery once the links are left alone ----

  predicate IsDelivery(e: Event) {
    e.BrokerReceives? || e.ClientReceives?
  }

  function Pending(s: System): nat {
    2 * |s.toBroker| + |s.toClient|
  }

  /** With nothing under way, nothing is in flight: the broker has every accepted message. */
  lemma QuietMeansDelivered(s: System)
    requires Inv(s) && s.connected && Pending(s) == 0
    ensures s.client.inflight == map[]
    ensures forall m :: m in s.accepted ==> m in s.received
  {
    assert forall id :: id in s.client.inflight.Keys ==> id in multiset(s.client.inflight.Keys);
  }

  /** While something is pending, some delivery can happen. */
  lemma DeliveryNeverBlocks(s: System)
    requires s.connected && Pending(s) > 0
    ensures Enabled(s, BrokerReceives) || Enabled(s, ClientReceives)
  {
  }

  /**
   From any state of a run with the connection up, deliveries in any interleaving can go on until there were exactly
   `Pending` of them, and no longer, and then every accepted message has been received.
   */
  lemma {:induction false} DeliveriesFinish(s: System, events: seq<Event>)
    requires Inv(s) && s.connected && Runs(s, events) && forall e :: e in events ==> IsDelivery(e)
    ensures |events| <= Pending(s) && Pending(After(s, events)) == Pending(s) - |events|
    ensures |events| == Pending(s) ==>
              var t := After(s, events);
              t.client.inflight == map[] && forall m :: m in s.accepted ==> m in t.received
    ensures |events| < Pending(s) ==>
              var t := After(s, events); Enabled(t, BrokerReceives) || Enabled(t, ClientReceives)
    decreases |events|
  {
    if events == [] {
      if Pending(s) == 0 {
        QuietMeansDelivered(s);
      } else {
        DeliveryNeverBlocks(s);
      }
    } else {
      var t := Next(s, events[0]);
      assert IsDelivery(events[0]);
      assert Pending(t) == Pending(s) - 1 && t.accepted == s.accepted && t.connected;
      StepKeepsInv(s, events[0]);
      hide Inv, Next, Pending, IsDelivery;
      DeliveriesFinish(t, events[1..]);
    }
  }

  // ---- How often a message can arrive ----

  function Messages(q: seq<Sent>): (ms: seq<Msg>)
    ensures |ms| == |q|
    ensures forall i :: 0 <= i < |q| ==> ms[i] == q[i].msg
  {
    if q == [] then [] else [q[0].msg] + Messages(q[1..])
  }

  lemma {:induction false} MessagesAppend(a: seq<Sent>, b: seq<Sent>)
    ensures Messages(a + b) == Messages(a) + Messages(b)
  {
  }

  /** Deliveries of `m` to the broker, made or under way. */
  ghost function Copies(s: System, m: Msg): nat {
    multiset(s.received)[m] + multiset(Messages(s.toBroker))[m]
  }

  /** Only a reconnection makes another copy of a message. */
  ghost predicate CopiesBounded(s: System) {
    forall m :: Copies(s, m) <= (if m in s.accepted then 1 + s.reconnects else 0)
  }

  /** A resend carries each message at most as often as its identifier is listed. */
  lemma {:induction false} ResentOnce(order: seq<u16>, inflight: map<u16, Msg>, m: Msg)
    requires forall id :: id in order ==> id in inflight && IdOf(inflight[id].ticket) == id
    ensures multiset(Messages(Resent(order, inflight)))[m] <= multiset(order)[IdOf(m.ticket)]
  {
    if order == [] {
      ResentFront(order, inflight);
    } else {
      hide *;
      var head, later := inflight[order[0]], Messages(Resent(order[1..], inflight));
      ResentFront(order, inflight);
      ResentOnce(order[1..], inflight, m);
      CountOne(head, later, m);
      CountOne(order[0], order[1..], IdOf(m.ticket));
      assert order == [order[0]] + order[1..];
    }
  }

  lemma ResentFront(order: seq<u16>, inflight: map<u16, Msg>)
    requires forall id :: id in order ==> id in inflight
    ensures order != [] ==>
              Messages(Resent(order, inflight)) == [inflight[order[0]]] + Messages(Resent(order[1..], inflight))
    ensures order == [] ==> Messages(Resent(order, inflight)) == []
  {
  }

  lemma CountOne<T>(head: T, later: seq<T>, x: T)
    ensures multiset([head] + later)[x] == (if x == head then 1 else 0) + multiset(later)[x]
  {
    assert multiset([head] + later) == multiset{head} + multiset(later);
  }

  lemma ReconnectKeepsCopies(s: System, order: seq<u16>, m: Msg)
    requires Bookkept(s) && OneInTransit(s) && Enabled(s, Reconnect(order)) && CopiesBounded(s)
    ensures var t := Next(s, Reconnect(order)); Copies(t, m) <= (if m in t.accepted then 1 + t.reconnects else 0)
  {
    forall id | id in order ensures id in s.client.inflight { ListedIsKey(order, s.client.inflight, id); }
    ResentOnce(order, s.client.inflight, m);
    assert multiset(s.client.inflight.Keys)[IdOf(m.ticket)] <= 1;
    assert Copies(s, m) == multiset(s.received)[m];
    var t := Next(s, Reconnect(order));
    if m in multiset(Messages(t.toBroker)) {
      assert m in Messages(t.toBroker);
    }
    assert Copies(s, m) <= (if m in s.accepted then 1 + s.reconnects else 0);
  }

  lemma PublishKeepsCopies(s: System, content: PublishMessage, m: Msg)
    requires Bookkept(s) && Enabled(s, Publish(content)) && CopiesBounded(s)
    ensures var t := Next(s, Publish(content)); Copies(t, m) <= (if m in t.accepted then 1 + t.reconnects else 0)
  {
    var sent := Sent(s.client.nextId, Msg(s.allocations, content), false);
    MessagesAppend(s.toBroker, [sent]);
    assert Messages([sent]) == [sent.msg];
    assert sent.msg !in s.accepted;
    assert Copies(s, m) <= (if m in s.accepted then 1 + s.reconnects else 0);
  }

  lemma StepKeepsCopies(s: System, e: Event)
    requires Bookkept(s) && OneInTransit(s) && Enabled(s, e) && CopiesBounded(s)
    ensures CopiesBounded(Next(s, e))
  {
    var t := Next(s, e);
    forall m ensures Copies(t, m) <= (if m in t.accepted then 1 + t.reconnects else 0) {
      assert Copies(s, m) <= (if m in s.accepted then 1 + s.reconnects else 0);
      match e
      case Publish(content) => PublishKeepsCopies(s, content, m);
      case Reconnect(order) => ReconnectKeepsCopies(s, order, m);
      case BrokerReceives =>
        assert Messages(s.toBroker) == [s.toBroker[0].msg] + Messages(s.toBroker[1..]);
      case ClientReceives =>
      case Allocate =>
      case Drop =>
    }
  }

  lemma {:induction false} RunsKeepCopies(s: System, events: seq<Event>)
    requires Inv(s) && CopiesBounded(s) && Runs(s, events)
    ensures CopiesBounded(After(s, events))
    decreases |events|
  {
    if events != [] {
      StepKeepsInv(s, events[0]);
      StepKeepsCopies(s, events[0]);
      hide Next, CopiesBounded, Inv;
      RunsKeepCopies(Next(s, events[0]), events[1..]);
    }
  }

  /** Over every run the broker gets a message at most once more than the connection was restored. */
  lemma DuplicatesNeedReconnects(events: seq<Event>, m: Msg)
    requires Runs(Initial(), events)
    ensures var s := After(Initial(), events); multiset(s.received)[m] <= 1 + s.reconnects
  {
    InitialInv();
    RunsKeepCopies(Initial(), events);
    assert Copies(After(Initial(), events), m) <= 1 + After(Initial(), events).reconnects;
  }

  // ---- Identifier reuse ----

  /** No message in flight is older than one cycle of identifiers. */
  predicate Young(s: System) {
    forall id :: id in s.client.inflight ==> s.allocations - s.client.inflight[id].ticket < ID_CYCLE
  }

  /** While every outstanding message is young, a publish overwrites nothing. */
  lemma YoungIsFresh(s: System, e: Event)
    requires Bookkept(s) && Young(s)
    ensures Fresh(s, e)
  {
    if s.client.nextId in s.client.inflight {
      var m := s.client.inflight[s.client.nextId];
      CycleIsDistinct(m.ticket, s.allocations);
    }
  }

  /**
   At its own step a publish loses a message exactly when it overwrites one the broker does not have. That is not all:
   overwriting a message that the broker has but whose acknowledgement is still to come does harm later.
   */
  lemma PublishLosesAtOnceIff(s: System, content: PublishMessage)
    requires Bookkept(s) && NoLoss(s) && s.connected
    ensures !NoLoss(Next(s, Publish(content)))
       <==> s.client.nextId in s.client.inflight && s.client.inflight[s.client.nextId] !in s.received
  {
    var t := Next(s, Publish(content));
    var id := s.client.nextId;
    var added := Msg(s.allocations, content);
    assert Outstanding(t, added);
    if id in s.client.inflight && s.client.inflight[id] !in s.received {
      var lost := s.client.inflight[id];
      assert lost in t.accepted && lost !in t.received && !Outstanding(t, lost);
    } else {
      forall m | m in t.accepted ensures m in t.received || Outstanding(t, m) {
        if m in s.accepted && m !in s.received {
          assert Outstanding(s, m);
        }
      }
    }
  }

  /** Acknowledgements delivered up to the one for `id` take a message the broker never got out of the client. */
  lemma {:induction false} StrayAckLoses(s: System, id: u16, m: Msg) returns (events: seq<Event>)
    requires s.connected && id in s.toClient
    requires m in s.accepted && m !in s.received && id in s.client.inflight && s.client.inflight[id] == m
    ensures Runs(s, events) && !NoLoss(After(s, events))
    decreases |s.toClient|
  {
    var t := Next(s, ClientReceives);
    assert Runs(t, []) && After(t, []) == t;
    if s.toClient[0] == id {
      events := [ClientReceives];
      assert m in t.notified && m !in t.received;
    } else {
      var later := StrayAckLoses(t, id, m);
      events := [ClientReceives] + later;
      assert events[1..] == later;
    }
  }

  /** So do deliveries up to a PUBLISH of `id` that carries another message, and then its acknowledgement. */
  lemma {:induction false} StrayPublishLoses(s: System, id: u16, m: Msg, j: nat) returns (events: seq<Event>)
    requires s.connected && j < |s.toBroker| && s.toBroker[j].id == id
    requires forall i :: 0 <= i <= j ==> s.toBroker[i].msg != m
    requires m in s.accepted && m !in s.received && id in s.client.inflight && s.client.inflight[id] == m
    ensures Runs(s, events) && !NoLoss(After(s, events))
    decreases j
  {
    var t := Next(s, BrokerReceives);
    var later: seq<Event>;
    if j == 0 {
      assert t.toClient[|s.toClient|] == id;
      later := StrayAckLoses(t, id, m);
    } else {
      later := StrayPublishLoses(t, id, m, j - 1);
    }
    events := [BrokerReceives] + later;
    assert events[1..] == later;
  }

  /** An identifier in flight has its PUBLISH or its PUBACK under way. */
  lemma InFlightIsUnderWay(s: System, id: u16)
    requires OneInTransit(s) && s.connected && id in s.client.inflight
    ensures id in s.toClient || exists j :: 0 <= j < |s.toBroker| && s.toBroker[j].id == id
  {
    assert id in multiset(s.client.inflight.Keys);
    if id in multiset(s.toClient) {
      assert id in s.toClient;
    } else {
      assert id in Ids(s.toBroker);
      var j :| 0 <= j < |s.toBroker| && Ids(s.toBroker)[j] == id;
      assert s.toBroker[j].id == id;
    }
  }

  /** Once a message in flight is overwritten, some deliveries that may follow lose or falsely acknowledge one. */
  lemma OverwritingLoses(s: System, content: PublishMessage) returns (events: seq<Event>)
    requires Inv(s) && s.connected && s.client.nextId in s.client.inflight
    ensures Runs(Next(s, Publish(content)), events) && !NoLoss(After(Next(s, Publish(content)), events))
  {
    var id, m, t := s.client.nextId, Msg(s.allocations, content), Next(s, Publish(content));
    assert m !in s.accepted && m !in s.received;
    InFlightIsUnderWay(s, id);
    if id in s.toClient {
      events := StrayAckLoses(t, id, m);
    } else {
      var j :| 0 <= j < |s.toBroker| && s.toBroker[j].id == id;
      forall i | 0 <= i <= j ensures t.toBroker[i].msg != m {
        assert t.toBroker[i] == s.toBroker[i] && s.toBroker[i] in s.toBroker;
      }
      events := StrayPublishLoses(t, id, m, j);
    }
  }

  /** Whatever follows a publish, nothing is lost or falsely acknowledged exactly when its identifier was free. */
  lemma PublishIsSafeIff(s: System, content: PublishMessage)
    requires Inv(s) && s.connected
    ensures (forall events :: Runs(Next(s, Publish(content)), events) ==>
                                 NoLoss(After(Next(s, Publish(content)), events)))
       <==> s.client.nextId !in s.client.inflight
  {
    var t := Next(s, Publish(content));
    if s.client.nextId in s.client.inflight {
      var events := OverwritingLoses(s, content);
    } else {
      StepKeepsInv(s, Publish(content));
      forall events | Runs(t, events) ensures NoLoss(After(t, events)) {
        RunsKeepInv(t, events);
      }
    }
  }

  function Allocations(n: nat): seq<Event> {
    if n == 0 then [] else [Allocate] + Allocations(n - 1)
  }

  lemma {:induction false} AllocationsOnlyCount(s: System, n: nat)
    requires Bookkept(s) && s.connected
    ensures Runs(s, Allocations(n))
    ensures After(s, Allocations(n)) == s.(client := Client(IdOf(s.allocations + n), s.client.inflight),
                                           allocations := s.allocations + n)
    decreases n
  {
    hide IdOf, NextId;
    if n > 0 {
      StepKeepsBooks(s, Allocate);
      AllocationsOnlyCount(Next(s, Allocate), n - 1);
      assert Allocations(n)[1..] == Allocations(n - 1);
    } else {
      assert s.client == Client(IdOf(s.allocations), s.client.inflight);
    }
  }

  /**
   Such a loss can be reached: a message that stays unacknowledged while 65,534 subscriptions come and go is overwritten
   by the next message.
   */
  lemma IdReuseLosesAMessage(first: PublishMessage, second: PublishMessage)
    ensures Runs(Initial(), [Publish(first)] + Allocations(ID_CYCLE - 1))
    ensures var s := After(Initial(), [Publish(first)] + Allocations(ID_CYCLE - 1));
            && Inv(s) && s.connected
            && !Fresh(s, Publish(second)) && !NoLoss(Next(s, Publish(second)))
  {
    InitialInv();
    StepKeepsInv(Initial(), Publish(first));
    var one := Next(Initial(), Publish(first));
    AllocationsOnlyCount(one, ID_CYCLE - 1);
    RunsKeepInv(one, Allocations(ID_CYCLE - 1));
    var s, events := After(one, Allocations(ID_CYCLE - 1)), [Publish(first)] + Allocations(ID_CYCLE - 1);
    assert events[1..] == Allocations(ID_CYCLE - 1) && After(Initial(), events) == s;
    assert IdOf(ID_CYCLE) == 1;
    assert s.client.nextId == 1 && s.client.inflight == one.client.inflight && s.received == [];
    PublishLosesAtOnceIff(s, second);
  }
}
