/**
 The QoS 1 session over byte links: the event loop's operations (crates/mqtt-tokio/src/eventloop.rs), a broker that
 cuts and decodes the bytes it gets, and a transport that can drop. Every run refines a run of the protocol.
 */
module ByteSession {
  import opened Wrappers
  import opened Bytes
  import opened Packets
  import opened Framing
  import opened PacketIds
  import opened Publishing
  import opened Receiving
  import opened Bursts
  import opened Refinement
  import D = Decoder
  import E = EventLoop
  import Encoder
  import PacketErrors
  import S = Session
  import T = Trie

  /**
   The event loop with the bytes it has written and the broker has not read (`loop.wire`), the bytes it has read and not
   cut (`tail`), the bytes under way to it, and the QoS 1 publishes the broker has decoded. The last four fields are
   history: identifiers handed out, QoS 1 messages accepted (all that the encoder takes), whose acknowledgement each
   caller waits for, and all callers.
   */
  datatype World = World(
    loop: Effects,
    tail: seq<byte>,
    incoming: seq<byte>,
    up: bool,
    received: seq<Packet>,
    allocations: nat,
    accepted: set<S.Msg>,
    owners: map<Reply, S.Msg>,
    replies: set<Reply>)

  /** A connected event loop as its constructor leaves it. */
  function Start(): World {
    World(Effects(S.Client(1, map[]), map[], map[], [], [], [], [], None), [], [], true, [], 0, {}, map[], {})
  }

  datatype Step =
    | Send(message: PublishMessage, ack: Option<Reply>)
    | SendAll(messages: seq<PublishMessage>)
    | Ask(filter: seq<byte>, qos: QoS, reply: Reply, regs: seq<T.Reg>)
    | Leave(filter: seq<byte>, reply: Reply, regs: seq<T.Reg>)
    | Pass(packet: Packet)
    | BrokerReads
    | BrokerWrites(packet: Packet)
    | ClientReads(size: nat, closed: set<T.Sender>)
    | Drop
    | Recover(order: seq<u16>, filters: seq<seq<byte>>, active: map<seq<byte>, QoS>)

  predicate IsMessage(p: Packet) {
    p.Publish? && p.qos == AtLeastOnce
  }

  predicate Good(p: Packet, v: Version) {
    Carried(p, v) && Sendable(p, v)
  }

  /** A packet of a size the protocol allows, which the decoders accept if the encoder takes it at all. */
  predicate Decent(p: Packet, l: Link) {
    Sendable(p, l.version) && (Fits(p, l.version, l.capacity) ==> Carried(p, l.version))
  }

  predicate AllDecent(ps: seq<Packet>, l: Link) {
    forall p :: p in ps ==> Decent(p, l)
  }

  /**
   What can happen, and what callers see to: packets of a size the protocol allows and with text that is UTF-8, a free
   identifier for each message, and a channel of its own for each caller. A read that ends inside a length field is no
   step: with it the event loop comes to a stop.
   */
  ghost predicate Possible(w: World, step: Step, l: Link) {
    var nextId := w.loop.book.nextId;
    match step
    case Send(m, ack) =>
      && w.up && Decent(PacketOf(m, TakenId(m, nextId)), l)
      && (m.qos != AtMostOnce ==> nextId !in w.loop.book.inflight)
      && (ack.Some? ==> ack.value !in w.replies)
    case SendAll(ms) =>
      w.up && AllDecent(Stamped(ms, nextId), l) && IdsFree(w.loop.book, ms)
    case Ask(filter, qos, reply, _) =>
      w.up && reply !in w.replies && Good(E.SubscribeFor(nextId, filter, qos), l.version)
    case Leave(filter, reply, _) =>
      w.up && reply !in w.replies && Good(Unsubscribe(nextId, [filter], []), l.version)
    case Pass(p) => w.up && !IsMessage(p) && Good(p, l.version)
    case BrokerReads => w.up && FrontOf(w.loop.wire).Whole?
    case BrokerWrites(p) => w.up && !p.PubAck? && Good(p, l.version)
    case ClientReads(size, _) =>
      w.up && 0 < size <= |w.incoming| && !Stuck(w.tail + w.incoming[..size])
    case Drop => w.up
    case Recover(order, filters, active) =>
      && !w.up && S.Lists(order, w.loop.book.inflight)
      && (forall id :: id in order ==> id in w.loop.book.inflight)
      && (forall f :: f in filters ==> f in active)
      && AllCarried(E.Resubscriptions(filters, active, nextId), l.version)
  }

  /** Every message of a burst finds its identifier free when its turn comes. */
  predicate IdsFree(book: S.Client<Pending>, ms: seq<PublishMessage>)
    decreases |ms|
  {
    ms == []
    || ((ms[0].qos != AtMostOnce ==> book.nextId !in book.inflight) && IdsFree(Booked(book, ms[0], None), ms[1..]))
  }

  function ToldAtOnce(m: PublishMessage, ack: Option<Reply>): seq<Reply> {
    if m.qos == AtMostOnce && ack.Some? then [ack.value] else []
  }

  /** The broker will hear of the message: it is one to be acknowledged by PUBACK, and the encoder takes it. */
  predicate IsHeard(m: PublishMessage, nextId: u16, l: Link) {
    m.qos == AtLeastOnce && Fits(PacketOf(m, Some(nextId)), l.version, l.capacity)
  }

  /** One message has been taken, and written unless the encoder refuses it. */
  function Sending(w: World, m: PublishMessage, ack: Option<Reply>, l: Link): World {
    var book, msg := w.loop.book, S.Msg(w.allocations, m);
    var heard := IsHeard(m, book.nextId, l);
    var written := Publishing.Sent(PacketOf(m, TakenId(m, book.nextId)), l.version, l.capacity);
    w.(loop := w.loop.(book := Booked(book, m, ack), wire := w.loop.wire + written,
                       told := w.loop.told + ToldAtOnce(m, ack)),
       allocations := w.allocations + (if m.qos == AtMostOnce then 0 else 1),
       accepted := if heard then w.accepted + {msg} else w.accepted,
       owners := if heard && ack.Some? then w.owners[ack.value := msg] else w.owners,
       replies := if ack.Some? then w.replies + {ack.value} else w.replies)
  }

  /** The messages of a burst, one after the other, up to the one at which it fails. */
  function SendingAll(w: World, b: Burst, ms: seq<PublishMessage>, l: Link): World
    requires b.buffered <= l.capacity
    decreases |ms|
  {
    if ms == [] || b.failed.Some? then w
    else SendingAll(Sending(w, ms[0], None, l), Taken(b, ms[0], l.version, l.capacity), ms[1..], l)
  }

  function Down(w: World): World {
    w.(loop := w.loop.(wire := [], ended := None), tail := [], incoming := [], up := false)
  }

  /** The identifier goes to a request, and its caller waits unless the encoder refuses the packet. */
  function Requested(w: World, p: Packet, reply: Reply, l: Link): World {
    w.(loop := w.loop.(book := S.Skip(w.loop.book), wire := w.loop.wire + Publishing.Sent(p, l.version, l.capacity)),
       allocations := w.allocations + 1, replies := w.replies + {reply})
  }

  function Waits(m: map<u16, Reply>, id: u16, p: Packet, reply: Reply, l: Link): map<u16, Reply> {
    if Fits(p, l.version, l.capacity) then m[id := reply] else m
  }

  /** The broker acknowledges a message and reads on behind anything else. */
  function BrokerTakes(w: World, r: Result<Option<Packet>, PacketErrors.PacketError>, n: nat, v: Version): World
    requires n <= |w.loop.wire|
  {
    var rest := w.(loop := w.loop.(wire := w.loop.wire[n..]));
    match r
    case Success(Some(Publish(dup, AtLeastOnce, retain, topic, Some(id), payload, props))) =>
      rest.(received := w.received + [Publish(dup, AtLeastOnce, retain, topic, Some(id), payload, props)],
            incoming := w.incoming + Encoded(PubAck(Bare(id)), v))
    case _ => rest
  }

  ghost function Moved(w: World, step: Step, l: Link): World
    requires Possible(w, step, l)
  {
    var book, v := w.loop.book, l.version;
    match step
    case Send(m, ack) =>
      var u := Sending(w, m, ack, l);
      if Fits(PacketOf(m, TakenId(m, book.nextId)), v, l.capacity) then u else Down(u)
    case SendAll(ms) =>
      var b := Bursts.Fresh(book, w.loop.wire);
      var u := SendingAll(w, b, ms, l);
      if TakenAll(b, ms, v, l.capacity).failed.None? then u else Down(u)
    case Ask(filter, qos, reply, regs) =>
      var p := E.SubscribeFor(book.nextId, filter, qos);
      var r := Requested(w, p, reply, l);
      r.(loop := r.loop.(regs := regs, subscribes := Waits(w.loop.subscribes, book.nextId, p, reply, l)))
    case Leave(filter, reply, regs) =>
      var p := Unsubscribe(book.nextId, [filter], []);
      var r := Requested(w, p, reply, l);
      r.(loop := r.loop.(regs := regs, unsubscribes := Waits(w.loop.unsubscribes, book.nextId, p, reply, l)))
    case Pass(p) => w.(loop := w.loop.(wire := w.loop.wire + Publishing.Sent(p, v, l.capacity)))
    case BrokerReads =>
      var n := FrontOf(w.loop.wire).size;
      BrokerTakes(w, D.Decode(w.loop.wire[..n], v), n, v)
    case BrokerWrites(p) => w.(incoming := w.incoming + Encoded(p, v))
    case ClientReads(size, closed) =>
      var data := w.tail + w.incoming[..size];
      var r := w.(loop := ReadEffects(w.loop, data, l.(closed := closed)), tail := Tail(data),
                  incoming := w.incoming[size..]);
      if r.loop.ended.Some? then Down(r) else r
    case Drop => Down(w)
    case Recover(order, filters, active) =>
      w.(up := true, allocations := w.allocations + |filters|,
         loop := w.loop.(
           book := S.Client(E.IdAfterAll(book.nextId, |filters|), book.inflight),
           wire := SentAll(E.Resends(order, book.inflight), v, l.capacity)
                   + SentAll(E.Resubscriptions(filters, active, book.nextId), v, l.capacity)))
  }

  ghost predicate Goes(w: World, steps: seq<Step>, l: Link)
    decreases |steps|
  {
    steps == [] || (Possible(w, steps[0], l) && Goes(Moved(w, steps[0], l), steps[1..], l))
  }

  ghost function Reached(w: World, steps: seq<Step>, l: Link): World
    requires Goes(w, steps, l)
    decreases |steps|
  {
    if steps == [] then w else Reached(Moved(w, steps[0], l), steps[1..], l)
  }

  // ---- What the bytes stand for ----

  /** The QoS 1 messages among the packets. */
  function Messages(ps: seq<Packet>): seq<Packet> {
    if ps == [] then [] else (if IsMessage(ps[0]) then [ps[0]] else []) + Messages(ps[1..])
  }

  lemma {:induction false} MessagesAppend(a: seq<Packet>, b: seq<Packet>)
    ensures Messages(a + b) == Messages(a) + Messages(b)
  {
    if a == [] {
      assert a + b == b;
    } else {
      assert (a + b)[0] == a[0] && (a + b)[1..] == a[1..] + b;
      MessagesAppend(a[1..], b);
      var front := if IsMessage(a[0]) then [a[0]] else [];
      MessagesStep(a);
      MessagesStep(a + b);
      hide *;
      Associative(front, Messages(a[1..]), Messages(b));
    }
  }

  lemma MessagesStep(ps: seq<Packet>)
    requires ps != []
    ensures Messages(ps) == (if IsMessage(ps[0]) then [ps[0]] else []) + Messages(ps[1..])
  {
    hide IsMessage;
  }

  function AckOf(a: Action): seq<u16> {
    if a.OnPubAck? then [a.id] else []
  }

  /** The identifiers acknowledged by the actions. */
  function AckIds(actions: seq<Action>): seq<u16> {
    if actions == [] then [] else AckOf(actions[0]) + AckIds(actions[1..])
  }

  lemma {:induction false} AckIdsAppend(a: seq<Action>, b: seq<Action>)
    ensures AckIds(a + b) == AckIds(a) + AckIds(b)
  {
    hide AckOf;
    if a == [] {
      assert a + b == b;
    } else {
      assert (a + b)[0] == a[0] && (a + b)[1..] == a[1..] + b;
      AckIdsAppend(a[1..], b);
      Associative(AckOf(a[0]), AckIds(a[1..]), AckIds(b));
    }
  }

  /** Bytes to the broker: the messages among their packets are those under way. */
  ghost predicate Written(ps: seq<Packet>, bytes: seq<byte>, toBroker: seq<S.Sent>, v: Version) {
    AllCarried(ps, v) && bytes == Concat(Encodings(ps, v)) && Messages(ps) == OnWire(toBroker)
  }

  ghost predicate Outgoing(bytes: seq<byte>, toBroker: seq<S.Sent>, v: Version) {
    exists ps: seq<Packet> :: Written(ps, bytes, toBroker, v)
  }

  /** Bytes to the client: the PUBACKs among their packets are those under way. */
  ghost predicate Answered(qs: seq<Packet>, bytes: seq<byte>, toClient: seq<u16>, v: Version) {
    AllCarried(qs, v) && bytes == Concat(Encodings(qs, v)) && AckIds(ActionsOf(qs)) == toClient
  }

  ghost predicate Incoming(bytes: seq<byte>, toClient: seq<u16>, v: Version) {
    exists qs: seq<Packet> :: Answered(qs, bytes, toClient, v)
  }

  lemma OutgoingMore(bytes: seq<byte>, toBroker: seq<S.Sent>, more: seq<Packet>, sents: seq<S.Sent>, v: Version)
    requires Outgoing(bytes, toBroker, v) && AllCarried(more, v) && Messages(more) == OnWire(sents)
    ensures Outgoing(bytes + Concat(Encodings(more, v)), toBroker + sents, v)
  {
    var ps: seq<Packet> :| Written(ps, bytes, toBroker, v);
    MessagesAppend(ps, more);
    OnWireAppend(toBroker, sents);
    AllCarriedAppend(ps, more, v);
    EncodedTogether(ps, more, v);
    hide AllCarried, Messages, OnWire, Encodings, Concat;
    assert Written(ps + more, bytes + Concat(Encodings(more, v)), toBroker + sents, v);
  }

  lemma IncomingMore(bytes: seq<byte>, toClient: seq<u16>, more: seq<Packet>, v: Version)
    requires Incoming(bytes, toClient, v) && AllCarried(more, v)
    ensures Incoming(bytes + Concat(Encodings(more, v)), toClient + AckIds(ActionsOf(more)), v)
  {
    var qs: seq<Packet> :| Answered(qs, bytes, toClient, v);
    ActionsOfAppend(qs, more);
    AckIdsAppend(ActionsOf(qs), ActionsOf(more));
    AllCarriedAppend(qs, more, v);
    EncodedTogether(qs, more, v);
    hide AllCarried, AckIds, ActionsOf, Encodings, Concat;
    assert Answered(qs + more, bytes + Concat(Encodings(more, v)), toClient + AckIds(ActionsOf(more)), v);
  }

  lemma NothingUnderWay(v: Version)
    ensures Outgoing([], [], v) && Incoming([], [], v)
  {
    assert Written([], [], [], v) && Answered([], [], [], v);
  }

  /** A packet that is no message may be written or refused. */
  lemma OutgoingNote(bytes: seq<byte>, toBroker: seq<S.Sent>, p: Packet, v: Version, capacity: nat)
    requires Outgoing(bytes, toBroker, v) && Good(p, v) && !IsMessage(p)
    ensures Outgoing(bytes + Publishing.Sent(p, v, capacity), toBroker, v)
  {
    hide Outgoing, Carried, Sendable, Encoded, Fits;
    if Fits(p, v, capacity) {
      assert [p][1..] == [];
      OneEncoding(p, v);
      OutgoingMore(bytes, toBroker, [p], [], v);
      assert toBroker + [] == toBroker;
    } else {
      assert bytes + [] == bytes;
    }
  }

  lemma OutgoingMessage(bytes: seq<byte>, toBroker: seq<S.Sent>, q: S.Sent, v: Version)
    requires Outgoing(bytes, toBroker, v) && Good(PacketFor(q), v) && q.msg.content.qos == AtLeastOnce
    ensures Outgoing(bytes + Encoded(PacketFor(q), v), toBroker + [q], v)
  {
    var p := PacketFor(q);
    assert IsMessage(p);
    hide Outgoing, Carried, Sendable, Encoded, PacketFor;
    assert [p][1..] == [] && [q][1..] == [];
    OneEncoding(p, v);
    OutgoingMore(bytes, toBroker, [p], [q], v);
  }

  // ---- Simulation ----

  /** The packet carries the message, under the message's identifier. */
  predicate Carries(p: Packet, m: S.Msg) {
    && p.Publish? && p.qos == AtLeastOnce && p.packetId == Some(IdOf(m.ticket))
    && p.topic == m.content.topic && p.payload == m.content.payload && p.retain == m.content.retain
  }

  ghost predicate AllCarry(ps: seq<Packet>, ms: seq<S.Msg>) {
    |ps| == |ms| && forall i :: 0 <= i < |ps| ==> Carries(ps[i], ms[i])
  }

  /** Everything in flight can be sent again. */
  ghost predicate Resendable(inflight: map<u16, Pending>, l: Link) {
    forall id :: id in inflight ==> Decent(E.Resend(id, inflight[id]), l)
  }

  /** The broker hears of the entry. */
  predicate IsLive(id: u16, entry: Pending, l: Link) {
    entry.0.qos == AtLeastOnce && Fits(E.Resend(id, entry), l.version, l.capacity)
  }

  /** The part of the books the broker hears of: QoS 1 messages that the encoder takes. */
  function LiveBook(book: S.Client<Pending>, l: Link): S.Client<Pending> {
    S.Client(book.nextId, map id | id in book.inflight && IsLive(id, book.inflight[id], l) :: book.inflight[id])
  }

  function Live(e: Effects, l: Link): Effects {
    e.(book := LiveBook(e.book, l))
  }

  /** A caller waits for the message in flight that names it, and was told only of messages acknowledged. */
  ghost predicate CallersKnown(e: Effects, owners: map<Reply, S.Msg>, inflight: map<u16, S.Msg>, notified: set<S.Msg>) {
    && (forall id :: id in e.book.inflight && e.book.inflight[id].1.Some? ==>
          && id in inflight && e.book.inflight[id].1.value in owners
          && owners[e.book.inflight[id].1.value] == inflight[id])
    && (forall r :: r in e.told && r in owners ==> owners[r] in notified)
  }

  /** Callers of requests are none of the messages' callers, and no caller is used twice. */
  ghost predicate CallersApart(e: Effects, owners: map<Reply, S.Msg>, replies: set<Reply>) {
    && owners.Keys <= replies
    && (forall r :: r in e.told ==> r in replies)
    && (forall id :: id in e.subscribes ==> e.subscribes[id] in replies && e.subscribes[id] !in owners)
    && (forall id :: id in e.unsubscribes ==> e.unsubscribes[id] in replies && e.unsubscribes[id] !in owners)
  }

  ghost predicate HeardStands(e: Effects, owners: map<Reply, S.Msg>, replies: set<Reply>, s: S.System, v: Version) {
    && Represents(e.book, s.client)
    && Outgoing(e.wire, s.toBroker, v)
    && CallersKnown(e, owners, s.client.inflight, s.notified)
    && CallersApart(e, owners, replies)
  }

  /** As far as the broker hears of it, the event loop is where the protocol is. */
  ghost predicate LoopStands(e: Effects, owners: map<Reply, S.Msg>, replies: set<Reply>, s: S.System, l: Link) {
    HeardStands(Live(e, l), owners, replies, s, l.version) && Resendable(e.book.inflight, l)
  }

  ghost predicate Simulates(w: World, s: S.System, l: Link) {
    && S.Inv(s) && w.up == s.connected
    && LoopStands(w.loop, w.owners, w.replies, s, l) && w.loop.ended.None?
    && Incoming(w.tail + w.incoming, s.toClient, l.version)
    && w.allocations == s.allocations && w.accepted == s.accepted && AllCarry(w.received, s.received)
  }

  lemma StartSimulates(l: Link)
    ensures Simulates(Start(), S.Initial(), l)
  {
    S.InitialInv();
    NothingUnderWay(l.version);
    assert LiveBook(Start().loop.book, l).inflight == map[];
    hide S.Inv, Outgoing, Incoming;
    assert Start().tail + Start().incoming == [];
  }

  lemma UnfoldStands(e: Effects, owners: map<Reply, S.Msg>, replies: set<Reply>, s: S.System, l: Link)
    requires LoopStands(e, owners, replies, s, l)
    ensures Resendable(e.book.inflight, l) && Outgoing(e.wire, s.toBroker, l.version)
    ensures var h := Live(e, l);
            && HeardStands(h, owners, replies, s, l.version)
            && Represents(h.book, s.client) && e.book.nextId == h.book.nextId == s.client.nextId
            && CallersKnown(h, owners, s.client.inflight, s.notified) && CallersApart(h, owners, replies)
            && h.book == LiveBook(e.book, l) && h.wire == e.wire && h.told == e.told
            && h.subscribes == e.subscribes && h.unsubscribes == e.unsubscribes
  {
    hide Outgoing, Resendable, CallersKnown, CallersApart, IsLive;
  }

  lemma FoldStands(e: Effects, owners: map<Reply, S.Msg>, replies: set<Reply>, s: S.System, l: Link)
    requires Represents(LiveBook(e.book, l), s.client) && Outgoing(e.wire, s.toBroker, l.version)
    requires Resendable(e.book.inflight, l)
    requires CallersKnown(Live(e, l), owners, s.client.inflight, s.notified)
    requires CallersApart(Live(e, l), owners, replies)
    ensures LoopStands(e, owners, replies, s, l)
  {
    hide Represents, Outgoing, Resendable, CallersKnown, CallersApart, LiveBook;
  }

  lemma UnfoldLive(e: Effects, l: Link)
    ensures Live(e, l) == e.(book := LiveBook(e.book, l))
  {
    hide LiveBook;
  }

  // ---- Sending ----

  /** DUP changes neither the size of a packet nor what the decoders make of it. */
  lemma ResendIsDecent(m: PublishMessage, id: u16, ack: Option<Reply>, l: Link)
    requires m.qos != AtMostOnce && Decent(PacketOf(m, Some(id)), l)
    ensures var entry := (m.(packetId := Some(id)), ack);
            && Decent(E.Resend(id, entry), l)
            && (IsLive(id, entry, l) <==> IsHeard(m, id, l))
  {
    var p, q := PacketOf(m, Some(id)), E.Resend(id, (m.(packetId := Some(id)), ack));
    assert q == p.(dup := true);
    assert Body(p, l.version) == Body(q, l.version);
    hide Body;
  }

  lemma ResendableMore(inflight: map<u16, Pending>, id: u16, entry: Pending, l: Link)
    requires Resendable(inflight, l) && Decent(E.Resend(id, entry), l)
    ensures Resendable(inflight[id := entry], l)
  {
    hide E.Resend, Decent;
  }

  lemma UnfoldBooked(book: S.Client<Pending>, m: PublishMessage, ack: Option<Reply>)
    ensures m.qos != AtMostOnce ==>
              Booked(book, m, ack) == S.Client(NextId(book.nextId),
                                               book.inflight[book.nextId := (m.(packetId := Some(book.nextId)), ack)])
    ensures m.qos == AtMostOnce ==> Booked(book, m, ack) == book
  {
    hide NextId;
  }

  /** The live part of the books gets the message exactly when the broker will hear of it. */
  lemma LiveBooked(book: S.Client<Pending>, m: PublishMessage, ack: Option<Reply>, l: Link)
    requires m.qos != AtMostOnce && book.nextId !in book.inflight && Decent(PacketOf(m, Some(book.nextId)), l)
    ensures LiveBook(Booked(book, m, ack), l)
         == if IsHeard(m, book.nextId, l) then Booked(LiveBook(book, l), m, ack) else S.Skip(LiveBook(book, l))
  {
    hide *;
    UnfoldBooked(book, m, ack);
    UnfoldBooked(LiveBook(book, l), m, ack);
    UnfoldSkip(LiveBook(book, l));
    ResendIsDecent(m, book.nextId, ack, l);
    LiveIsLess(book, l);
    LiveIsLess(Booked(book, m, ack), l);
    LiveInsert(book, book.nextId, (m.(packetId := Some(book.nextId)), ack), l);
    LiveNextId(S.Client(book.nextId, Booked(book, m, ack).inflight), NextId(book.nextId), l);
  }

  lemma LiveInsert(book: S.Client<Pending>, id: u16, entry: Pending, l: Link)
    requires id !in book.inflight
    ensures LiveBook(S.Client(book.nextId, book.inflight[id := entry]), l).inflight
         == if IsLive(id, entry, l) then LiveBook(book, l).inflight[id := entry] else LiveBook(book, l).inflight
  {
    hide *;
    var more := S.Client(book.nextId, book.inflight[id := entry]);
    LiveIsLess(book, l);
    LiveIsLess(more, l);
    var a, b := LiveBook(more, l).inflight, LiveBook(book, l).inflight;
    forall j ensures j in a <==> j in b || (j == id && IsLive(id, entry, l)) {
      assert j in more.inflight <==> j in book.inflight || j == id;
    }
    assert a.Keys == if IsLive(id, entry, l) then b.Keys + {id} else b.Keys;
  }

  lemma CallersOfSend(e: Effects, owners: map<Reply, S.Msg>, replies: set<Reply>, s: S.System, m: PublishMessage,
                      ack: Option<Reply>, wire: seq<byte>)
    requires CallersKnown(e, owners, s.client.inflight, s.notified) && CallersApart(e, owners, replies)
    requires Represents(e.book, s.client) && m.qos == AtLeastOnce && (ack.Some? ==> ack.value !in replies)
    ensures var f := e.(book := Booked(e.book, m, ack), wire := wire);
            var msg := S.Msg(s.allocations, m);
            var owners' := if ack.Some? then owners[ack.value := msg] else owners;
            && CallersKnown(f, owners', s.client.inflight[e.book.nextId := msg], s.notified)
            && CallersApart(f, owners', if ack.Some? then replies + {ack.value} else replies)
  {
    var msg, id := S.Msg(s.allocations, m), e.book.nextId;
    var owners' := if ack.Some? then owners[ack.value := msg] else owners;
    forall j | j in e.book.inflight && e.book.inflight[j].1.Some?
      ensures ack.Some? ==> e.book.inflight[j].1.value != ack.value
    {
      assert e.book.inflight[j].1.value in owners;
    }
    UnfoldBooked(e.book, m, ack);
    hide Booked, NextId, Represents;
  }

  /** A message the broker will hear of is the protocol's publish. */
  lemma HeardRefines(w: World, s: S.System, m: PublishMessage, ack: Option<Reply>, l: Link)
    requires Simulates(w, s, l) && w.up && IsHeard(m, w.loop.book.nextId, l) && (ack.Some? ==> ack.value !in w.replies)
    requires w.loop.book.nextId !in w.loop.book.inflight && Decent(PacketOf(m, Some(w.loop.book.nextId)), l)
    ensures S.Enabled(s, S.Publish(m)) && S.Fresh(s, S.Publish(m))
    ensures Simulates(Sending(w, m, ack, l), S.Next(s, S.Publish(m)), l)
  {
    hide *;
    var book, v := w.loop.book, l.version;
    var id, h := book.nextId, Live(w.loop, l);
    var q := S.Sent(id, S.Msg(s.allocations, m), false);
    UnfoldSimulates(w, s, l);
    UnfoldStands(w.loop, w.owners, w.replies, s, l);
    UnfoldHeard(w, m, ack, l);
    UnfoldPublish(s, m);
    LiveBooked(book, m, ack, l);
    LiveIsLess(book, l);
    SameKeys(h.book, s.client);
    SendIsPublish(h.book, s, m, ack);
    OutgoingMessage(w.loop.wire, s.toBroker, q, v);
    ResendIsDecent(m, id, ack, l);
    UnfoldBooked(book, m, ack);
    ResendableMore(book.inflight, id, (m.(packetId := Some(id)), ack), l);
    CallersOfSend(h, w.owners, w.replies, s, m, ack, w.loop.wire + Encoded(PacketFor(q), v));
    S.StepKeepsInv(s, S.Publish(m));
    var u, t := Sending(w, m, ack, l), S.Next(s, S.Publish(m));
    UnfoldLive(w.loop, l);
    UnfoldLive(u.loop, l);
    FoldStands(u.loop, u.owners, u.replies, t, l);
    FoldSimulates(u, t, l);
  }

  lemma UnfoldHeard(w: World, m: PublishMessage, ack: Option<Reply>, l: Link)
    requires IsHeard(m, w.loop.book.nextId, l) && Decent(PacketOf(m, Some(w.loop.book.nextId)), l)
    ensures var book, id, msg := w.loop.book, w.loop.book.nextId, S.Msg(w.allocations, m);
            var p := PacketOf(m, Some(id));
            && m.qos == AtLeastOnce && Good(p, l.version) && p == PacketFor(S.Sent(id, msg, false))
            && Sending(w, m, ack, l)
               == w.(loop := w.loop.(book := Booked(book, m, ack), wire := w.loop.wire + Encoded(p, l.version)),
                     allocations := w.allocations + 1, accepted := w.accepted + {msg},
                     owners := if ack.Some? then w.owners[ack.value := msg] else w.owners,
                     replies := if ack.Some? then w.replies + {ack.value} else w.replies)
  {
    assert m.(dup := m.dup || false) == m && w.loop.told + [] == w.loop.told;
    hide Carried, Sendable, Fits, Encoded, Booked;
  }

  lemma UnfoldPublish(s: S.System, m: PublishMessage)
    requires s.connected
    ensures S.Enabled(s, S.Publish(m)) && (s.client.nextId !in s.client.inflight ==> S.Fresh(s, S.Publish(m)))
    ensures var id := s.client.nextId;
            var t, msg := S.Next(s, S.Publish(m)), S.Msg(s.allocations, m);
            && t.toBroker == s.toBroker + [S.Sent(id, msg, false)]
            && t.client.inflight == s.client.inflight[id := msg] && t.notified == s.notified && t.connected
            && t.toClient == s.toClient && t.received == s.received
            && t.allocations == s.allocations + 1 && t.accepted == s.accepted + {msg}
  {
    hide NextId;
  }

  lemma LiveIsLess(book: S.Client<Pending>, l: Link)
    ensures LiveBook(book, l).nextId == book.nextId
    ensures forall id :: id in LiveBook(book, l).inflight ==>
                           id in book.inflight && LiveBook(book, l).inflight[id] == book.inflight[id]
    ensures forall id :: id in book.inflight && IsLive(id, book.inflight[id], l) <==> id in LiveBook(book, l).inflight
  {
    hide IsLive;
  }

  lemma SameKeys(book: S.Client<Pending>, c: S.Client<S.Msg>)
    requires Represents(book, c)
    ensures forall id :: id in book.inflight <==> id in c.inflight
  {
    assert book.inflight.Keys == c.inflight.Keys;
  }

  /**
   A message the broker does not hear of, or need not acknowledge, is at most an identifier taken: QoS 0, QoS 2, and
   whatever the encoder refuses.
   */
  lemma UnheardRefines(w: World, s: S.System, m: PublishMessage, ack: Option<Reply>, l: Link)
    returns (events: seq<S.Event>)
    requires Simulates(w, s, l) && w.up && !IsHeard(m, w.loop.book.nextId, l) && (ack.Some? ==> ack.value !in w.replies)
    requires Decent(PacketOf(m, TakenId(m, w.loop.book.nextId)), l)
    requires m.qos != AtMostOnce ==> w.loop.book.nextId !in w.loop.book.inflight
    ensures S.Runs(s, events) && Simulates(Sending(w, m, ack, l), S.After(s, events), l)
  {
    hide *;
    var book, h, u := w.loop.book, Live(w.loop, l), Sending(w, m, ack, l);
    UnfoldSimulates(w, s, l);
    UnfoldStands(w.loop, w.owners, w.replies, s, l);
    UnfoldUnheard(w, m, ack, l);
    UnheardOutgoing(w.loop.wire, s.toBroker, m, book.nextId, l);
    UnfoldBooked(book, m, ack);
    UnfoldLive(w.loop, l);
    UnfoldLive(u.loop, l);
    var t := s;
    if m.qos == AtMostOnce {
      events := [];
      NoEvents(s);
    } else {
      events := [S.Allocate];
      SubscribeIsAllocate(h.book, s);
      UnfoldAllocate(s);
      OneEvent(s, S.Allocate);
      S.StepKeepsInv(s, S.Allocate);
      UnfoldTaken(m, book.nextId);
      LiveBooked(book, m, ack, l);
      ResendIsDecent(m, book.nextId, ack, l);
      ResendableMore(book.inflight, book.nextId, (m.(packetId := Some(book.nextId)), ack), l);
      UnfoldSkip(h.book);
      t := S.Next(s, S.Allocate);
    }
    CallersUnheard(h, Live(u.loop, l), w.owners, w.replies, s, m, ack);
    FoldStands(u.loop, u.owners, u.replies, t, l);
    FoldSimulates(u, t, l);
  }

  lemma UnfoldTaken(m: PublishMessage, nextId: u16)
    ensures TakenId(m, nextId) == if m.qos == AtMostOnce then None else Some(nextId)
  {
  }

  lemma UnfoldSkip(book: S.Client<Pending>)
    ensures S.Skip(book) == S.Client(NextId(book.nextId), book.inflight)
  {
    hide NextId;
  }

  lemma UnfoldAllocate(s: S.System)
    requires s.connected
    ensures S.Enabled(s, S.Allocate) && S.Fresh(s, S.Allocate)
    ensures var t := S.Next(s, S.Allocate);
            && t.client.inflight == s.client.inflight && t.notified == s.notified && t.connected
            && t.toBroker == s.toBroker && t.toClient == s.toClient && t.received == s.received
            && t.allocations == s.allocations + 1 && t.accepted == s.accepted
  {
    hide NextId;
  }

  lemma UnfoldUnheard(w: World, m: PublishMessage, ack: Option<Reply>, l: Link)
    requires !IsHeard(m, w.loop.book.nextId, l)
    ensures Sending(w, m, ack, l)
         == w.(loop := w.loop.(book := Booked(w.loop.book, m, ack),
                               wire := w.loop.wire + Publishing.Sent(PacketOf(m, TakenId(m, w.loop.book.nextId)),
                                                                     l.version, l.capacity),
                               told := w.loop.told + ToldAtOnce(m, ack)),
               allocations := w.allocations + (if m.qos == AtMostOnce then 0 else 1),
               replies := if ack.Some? then w.replies + {ack.value} else w.replies)
  {
    hide IsHeard, Publishing.Sent, Booked, PacketOf;
  }

  lemma UnheardOutgoing(bytes: seq<byte>, toBroker: seq<S.Sent>, m: PublishMessage, nextId: u16, l: Link)
    requires Outgoing(bytes, toBroker, l.version) && !IsHeard(m, nextId, l)
    requires Decent(PacketOf(m, TakenId(m, nextId)), l)
    ensures var p := PacketOf(m, TakenId(m, nextId));
            Outgoing(bytes + Publishing.Sent(p, l.version, l.capacity), toBroker, l.version)
  {
    var p := PacketOf(m, TakenId(m, nextId));
    hide Outgoing, Carried, Sendable, Encoded, Fits;
    if Fits(p, l.version, l.capacity) {
      OutgoingNote(bytes, toBroker, p, l.version, l.capacity);
    } else {
      assert bytes + [] == bytes;
    }
  }

  /** Its caller is none of those who wait for a PUBACK. */
  lemma CallersUnheard(e: Effects, f: Effects, owners: map<Reply, S.Msg>, replies: set<Reply>, s: S.System,
                       m: PublishMessage, ack: Option<Reply>)
    requires CallersKnown(e, owners, s.client.inflight, s.notified) && CallersApart(e, owners, replies)
    requires ack.Some? ==> ack.value !in replies
    requires f.book.inflight == e.book.inflight && f.told == e.told + ToldAtOnce(m, ack)
    requires f.subscribes == e.subscribes && f.unsubscribes == e.unsubscribes
    ensures CallersKnown(f, owners, s.client.inflight, s.notified)
    ensures CallersApart(f, owners, if ack.Some? then replies + {ack.value} else replies)
  {
  }

  lemma SendingRefines(w: World, s: S.System, m: PublishMessage, ack: Option<Reply>, l: Link)
    returns (events: seq<S.Event>)
    requires Simulates(w, s, l) && w.up && (ack.Some? ==> ack.value !in w.replies)
    requires Decent(PacketOf(m, TakenId(m, w.loop.book.nextId)), l)
    requires m.qos != AtMostOnce ==> w.loop.book.nextId !in w.loop.book.inflight
    ensures S.Runs(s, events) && Simulates(Sending(w, m, ack, l), S.After(s, events), l)
    ensures Sending(w, m, ack, l).up && Sending(w, m, ack, l).loop.book == Booked(w.loop.book, m, ack)
  {
    hide *;
    UnfoldSending(w, m, ack, l);
    if IsHeard(m, w.loop.book.nextId, l) {
      HeardIsMessage(m, w.loop.book.nextId, l);
      HeardRefines(w, s, m, ack, l);
      OneEvent(s, S.Publish(m));
      events := [S.Publish(m)];
    } else {
      events := UnheardRefines(w, s, m, ack, l);
    }
  }

  lemma UnfoldSending(w: World, m: PublishMessage, ack: Option<Reply>, l: Link)
    ensures var u := Sending(w, m, ack, l);
            && u.up == w.up && u.loop.book == Booked(w.loop.book, m, ack) && u.received == w.received
            && u.tail == w.tail && u.incoming == w.incoming
            && u.loop.wire == w.loop.wire + Publishing.Sent(PacketOf(m, TakenId(m, w.loop.book.nextId)), l.version,
                                                            l.capacity)
  {
    hide IsHeard, Publishing.Sent, Booked, PacketOf;
  }

  lemma HeardIsMessage(m: PublishMessage, nextId: u16, l: Link)
    requires IsHeard(m, nextId, l)
    ensures m.qos == AtLeastOnce && TakenId(m, nextId) == Some(nextId)
  {
    hide Fits;
  }

  /** A message that the encoder refuses ends the connection, and stays in flight unheard. */
  lemma SendRefines(w: World, s: S.System, m: PublishMessage, ack: Option<Reply>, l: Link)
    returns (events: seq<S.Event>)
    requires Simulates(w, s, l) && Possible(w, Send(m, ack), l)
    ensures S.Runs(s, events) && Simulates(Moved(w, Send(m, ack), l), S.After(s, events), l)
  {
    hide *;
    UnfoldSend(w, m, ack, l);
    UnfoldSending(w, m, ack, l);
    events := SendingRefines(w, s, m, ack, l);
    if !Fits(PacketOf(m, TakenId(m, w.loop.book.nextId)), l.version, l.capacity) {
      var more := EndRefines(Sending(w, m, ack, l), S.After(s, events), l);
      RunsOn(s, events, more);
      events := events + more;
    }
  }

  lemma UnfoldSend(w: World, m: PublishMessage, ack: Option<Reply>, l: Link)
    requires Possible(w, Send(m, ack), l)
    ensures w.up && (ack.Some? ==> ack.value !in w.replies)
    ensures var p := PacketOf(m, TakenId(m, w.loop.book.nextId));
            && Decent(p, l) && (m.qos != AtMostOnce ==> w.loop.book.nextId !in w.loop.book.inflight)
            && Moved(w, Send(m, ack), l)
               == if Fits(p, l.version, l.capacity) then Sending(w, m, ack, l) else Down(Sending(w, m, ack, l))
  {
    hide Decent, Fits, Sending, Down, PacketOf;
  }

  /** The connection ends. */
  lemma EndRefines(w: World, s: S.System, l: Link) returns (events: seq<S.Event>)
    requires Simulates(w, s, l) && w.up
    ensures S.Runs(s, events) && Simulates(Down(w), S.After(s, events), l)
  {
    hide *;
    UnfoldSimulates(w, s, l);
    DownRefines(w, s, l);
    OneEvent(s, S.Drop);
    events := [S.Drop];
  }

  // ---- Bursts ----

  /** A burst takes and writes what its messages do one after the other, refused ones included. */
  lemma {:induction false} BurstIsItsMessages(w: World, b: Burst, ms: seq<PublishMessage>, l: Link)
    requires b.buffered <= l.capacity && b.failed.None? && w.loop.book == b.book && w.loop.wire == b.out
    requires AllDecent(Stamped(ms, w.loop.book.nextId), l)
    ensures var u, r := SendingAll(w, b, ms, l), TakenAll(b, ms, l.version, l.capacity);
            u.loop.book == r.book && u.loop.wire == r.out && r.failed != Some(Panic)
    decreases |ms|
  {
    hide *;
    UnfoldSendingAll(w, b, ms, l);
    if ms != [] {
      var ps, next := Stamped(ms, w.loop.book.nextId), Taken(b, ms[0], l.version, l.capacity);
      var u := Sending(w, ms[0], None, l);
      TakenStep(b, ms[0], l.version, l.capacity);
      StampedStep(ms, w.loop.book);
      FailureSticks(b, ms, l.version, l.capacity);
      UnfoldSending(w, ms[0], None, l);
      FirstDecent(ps, l);
      if next.failed.None? {
        assert ps[1..] == Stamped(ms[1..], u.loop.book.nextId);
        BurstIsItsMessages(u, next, ms[1..], l);
      } else {
        UnfoldSendingAll(u, next, ms[1..], l);
      }
    }
  }

  lemma FirstDecent(ps: seq<Packet>, l: Link)
    requires AllDecent(ps, l) && ps != []
    ensures Decent(ps[0], l) && Sendable(ps[0], l.version) && AllDecent(ps[1..], l)
  {
    hide Sendable, Carried, Fits;
  }

  lemma UnfoldSendingAll(w: World, b: Burst, ms: seq<PublishMessage>, l: Link)
    requires b.buffered <= l.capacity
    ensures SendingAll(w, b, ms, l)
         == if ms == [] || b.failed.Some? then w
            else SendingAll(Sending(w, ms[0], None, l), Taken(b, ms[0], l.version, l.capacity), ms[1..], l)
    ensures TakenAll(b, ms, l.version, l.capacity)
         == if ms == [] || b.failed.Some? then b
            else TakenAll(Taken(b, ms[0], l.version, l.capacity), ms[1..], l.version, l.capacity)
    ensures ms != [] ==> Taken(b, ms[0], l.version, l.capacity).buffered <= l.capacity
  {
    hide Sending, Taken;
  }

  lemma {:induction false} SendingAllRefines(w: World, s: S.System, b: Burst, ms: seq<PublishMessage>, l: Link)
    returns (events: seq<S.Event>)
    requires Simulates(w, s, l) && w.up && IdsFree(w.loop.book, ms) && AllDecent(Stamped(ms, w.loop.book.nextId), l)
    requires b.buffered <= l.capacity
    ensures S.Runs(s, events) && Simulates(SendingAll(w, b, ms, l), S.After(s, events), l)
    ensures SendingAll(w, b, ms, l).up
    decreases |ms|
  {
    hide *;
    UnfoldSendingAll(w, b, ms, l);
    if ms == [] || b.failed.Some? {
      NoEvents(s);
      events := [];
    } else {
      var ps, u := Stamped(ms, w.loop.book.nextId), Sending(w, ms[0], None, l);
      StampedStep(ms, w.loop.book);
      FirstDecent(ps, l);
      UnfoldIdsFree(w.loop.book, ms);
      var first := SendingRefines(w, s, ms[0], None, l);
      assert ps[1..] == Stamped(ms[1..], u.loop.book.nextId);
      var later := SendingAllRefines(u, S.After(s, first), Taken(b, ms[0], l.version, l.capacity), ms[1..], l);
      RunsOn(s, first, later);
      events := first + later;
    }
  }

  lemma UnfoldIdsFree(book: S.Client<Pending>, ms: seq<PublishMessage>)
    requires IdsFree(book, ms) && ms != []
    ensures ms[0].qos != AtMostOnce ==> book.nextId !in book.inflight
    ensures IdsFree(Booked(book, ms[0], None), ms[1..])
  {
    hide Booked;
  }

  lemma {:induction false} SendingAllKeepsTail(w: World, b: Burst, ms: seq<PublishMessage>, l: Link)
    requires b.buffered <= l.capacity
    ensures SendingAll(w, b, ms, l).tail == w.tail
    decreases |ms|
  {
    hide *;
    UnfoldSendingAll(w, b, ms, l);
    if ms != [] && b.failed.None? {
      UnfoldSending(w, ms[0], None, l);
      SendingAllKeepsTail(Sending(w, ms[0], None, l), Taken(b, ms[0], l.version, l.capacity), ms[1..], l);
    }
  }

  lemma SendAllRefines(w: World, s: S.System, ms: seq<PublishMessage>, l: Link) returns (events: seq<S.Event>)
    requires Simulates(w, s, l) && Possible(w, SendAll(ms), l)
    ensures S.Runs(s, events) && Simulates(Moved(w, SendAll(ms), l), S.After(s, events), l)
  {
    hide *;
    UnfoldSendAll(w, ms, l);
    var b := Bursts.Fresh(w.loop.book, w.loop.wire);
    events := SendingAllRefines(w, s, b, ms, l);
    if TakenAll(b, ms, l.version, l.capacity).failed.Some? {
      var more := EndRefines(SendingAll(w, b, ms, l), S.After(s, events), l);
      RunsOn(s, events, more);
      events := events + more;
    }
  }

  lemma UnfoldSendAll(w: World, ms: seq<PublishMessage>, l: Link)
    requires Possible(w, SendAll(ms), l)
    ensures w.up && AllDecent(Stamped(ms, w.loop.book.nextId), l) && IdsFree(w.loop.book, ms)
    ensures Bursts.Fresh(w.loop.book, w.loop.wire).buffered <= l.capacity
    ensures var b := Bursts.Fresh(w.loop.book, w.loop.wire);
            Moved(w, SendAll(ms), l)
            == if TakenAll(b, ms, l.version, l.capacity).failed.None? then SendingAll(w, b, ms, l)
               else Down(SendingAll(w, b, ms, l))
  {
    hide AllDecent, Stamped, IdsFree, SendingAll, TakenAll, Down;
  }

  // ---- Requests and other packets ----

  ghost predicate AtMostOneMore(before: map<u16, Reply>, after: map<u16, Reply>, reply: Reply) {
    forall id :: id in after ==> after[id] == reply || (id in before && after[id] == before[id])
  }

  lemma RequestRefines(w: World, s: S.System, p: Packet, reply: Reply, regs: seq<T.Reg>, subscribes: map<u16, Reply>,
                       unsubscribes: map<u16, Reply>, l: Link)
    requires Simulates(w, s, l) && w.up && reply !in w.replies && Good(p, l.version) && !IsMessage(p)
    requires AtMostOneMore(w.loop.subscribes, subscribes, reply)
    requires AtMostOneMore(w.loop.unsubscribes, unsubscribes, reply)
    ensures S.Enabled(s, S.Allocate) && S.Fresh(s, S.Allocate)
    ensures var r := Requested(w, p, reply, l);
            Simulates(r.(loop := r.loop.(regs := regs, subscribes := subscribes, unsubscribes := unsubscribes)),
                      S.Next(s, S.Allocate), l)
  {
    hide *;
    var h, r := Live(w.loop, l), Requested(w, p, reply, l);
    var u := r.(loop := r.loop.(regs := regs, subscribes := subscribes, unsubscribes := unsubscribes));
    UnfoldSimulates(w, s, l);
    UnfoldStands(w.loop, w.owners, w.replies, s, l);
    UnfoldRequested(w, p, reply, l);
    UnfoldAllocate(s);
    var t := S.Next(s, S.Allocate);
    SubscribeIsAllocate(h.book, s);
    OutgoingNote(w.loop.wire, s.toBroker, p, l.version, l.capacity);
    S.StepKeepsInv(s, S.Allocate);
    LiveSkips(w.loop.book, l);
    UnfoldSkip(h.book);
    UnfoldSkip(w.loop.book);
    UnfoldLive(u.loop, l);
    SameCallersKnown(h, Live(u.loop, l), w.owners, s.client.inflight, s.notified);
    CallersOfRequest(h, Live(u.loop, l), w.owners, w.replies, reply);
    FoldStands(u.loop, u.owners, u.replies, t, l);
    FoldSimulates(u, t, l);
  }

  lemma UnfoldRequested(w: World, p: Packet, reply: Reply, l: Link)
    ensures Requested(w, p, reply, l)
         == w.(loop := w.loop.(book := S.Skip(w.loop.book),
                               wire := w.loop.wire + Publishing.Sent(p, l.version, l.capacity)),
               allocations := w.allocations + 1, replies := w.replies + {reply})
  {
    hide Publishing.Sent;
  }

  lemma LiveSkips(book: S.Client<Pending>, l: Link)
    ensures LiveBook(S.Skip(book), l) == S.Skip(LiveBook(book, l))
  {
    hide IsLive, NextId;
    assert LiveBook(S.Skip(book), l).inflight == LiveBook(book, l).inflight;
  }

  lemma SameCallersKnown(e: Effects, f: Effects, owners: map<Reply, S.Msg>, inflight: map<u16, S.Msg>,
                         notified: set<S.Msg>)
    requires CallersKnown(e, owners, inflight, notified)
    requires f.book.inflight == e.book.inflight && f.told == e.told
    ensures CallersKnown(f, owners, inflight, notified)
  {
  }

  lemma CallersOfRequest(e: Effects, f: Effects, owners: map<Reply, S.Msg>, replies: set<Reply>, reply: Reply)
    requires CallersApart(e, owners, replies) && reply !in replies && f.told == e.told
    requires AtMostOneMore(e.subscribes, f.subscribes, reply) && AtMostOneMore(e.unsubscribes, f.unsubscribes, reply)
    ensures CallersApart(f, owners, replies + {reply})
  {
  }

  lemma AskRefines(w: World, s: S.System, filter: seq<byte>, qos: QoS, reply: Reply, regs: seq<T.Reg>, l: Link)
    requires Simulates(w, s, l) && Possible(w, Ask(filter, qos, reply, regs), l)
    ensures S.Enabled(s, S.Allocate) && S.Fresh(s, S.Allocate)
    ensures Simulates(Moved(w, Ask(filter, qos, reply, regs), l), S.Next(s, S.Allocate), l)
  {
    hide Simulates, Good, Fits, NextId, Publishing.Sent;
    var p := E.SubscribeFor(w.loop.book.nextId, filter, qos);
    var waiting := Waits(w.loop.subscribes, w.loop.book.nextId, p, reply, l);
    RequestRefines(w, s, p, reply, regs, waiting, w.loop.unsubscribes, l);
  }

  lemma LeaveRefines(w: World, s: S.System, filter: seq<byte>, reply: Reply, regs: seq<T.Reg>, l: Link)
    requires Simulates(w, s, l) && Possible(w, Leave(filter, reply, regs), l)
    ensures S.Enabled(s, S.Allocate) && S.Fresh(s, S.Allocate)
    ensures Simulates(Moved(w, Leave(filter, reply, regs), l), S.Next(s, S.Allocate), l)
  {
    hide Simulates, Good, Fits, NextId, Publishing.Sent;
    var p := Unsubscribe(w.loop.book.nextId, [filter], []);
    var waiting := Waits(w.loop.unsubscribes, w.loop.book.nextId, p, reply, l);
    RequestRefines(w, s, p, reply, regs, w.loop.subscribes, waiting, l);
  }

  lemma PassRefines(w: World, s: S.System, p: Packet, l: Link)
    requires Simulates(w, s, l) && Possible(w, Pass(p), l)
    ensures Simulates(Moved(w, Pass(p), l), s, l)
  {
    hide *;
    UnfoldSimulates(w, s, l);
    UnfoldStands(w.loop, w.owners, w.replies, s, l);
    UnfoldPass(w, p, l);
    OutgoingNote(w.loop.wire, s.toBroker, p, l.version, l.capacity);
    WireChanges(w.loop, w.owners, w.replies, s, s, w.loop.wire + Publishing.Sent(p, l.version, l.capacity), l);
    FoldSimulates(Moved(w, Pass(p), l), s, l);
  }

  lemma UnfoldPass(w: World, p: Packet, l: Link)
    requires Possible(w, Pass(p), l)
    ensures Good(p, l.version) && !IsMessage(p)
    ensures Moved(w, Pass(p), l)
         == w.(loop := w.loop.(wire := w.loop.wire + Publishing.Sent(p, l.version, l.capacity)))
  {
    hide Good, IsMessage, Publishing.Sent;
  }

  lemma SameCallersApart(e: Effects, wire: seq<byte>, owners: map<Reply, S.Msg>, replies: set<Reply>)
    requires CallersApart(e, owners, replies)
    ensures CallersApart(e.(wire := wire), owners, replies)
    ensures CallersApart(e.(wire := wire, ended := None), owners, replies)
  {
  }

  // ---- The broker ----

  lemma BrokerWritesRefines(w: World, s: S.System, p: Packet, l: Link)
    requires Simulates(w, s, l) && Possible(w, BrokerWrites(p), l)
    ensures Simulates(Moved(w, BrokerWrites(p), l), s, l)
  {
    hide *;
    UnfoldSimulates(w, s, l);
    UnfoldBrokerWrites(w, p, l);
    OneIncoming(w, s, p, l);
    ActionsOfOne(p);
    assert s.toClient + [] == s.toClient;
    FoldSimulates(Moved(w, BrokerWrites(p), l), s, l);
  }

  lemma UnfoldBrokerWrites(w: World, p: Packet, l: Link)
    requires Possible(w, BrokerWrites(p), l)
    ensures !p.PubAck? && Good(p, l.version)
    ensures Moved(w, BrokerWrites(p), l) == w.(incoming := w.incoming + Encoded(p, l.version))
  {
    hide Good, Encoded;
  }

  lemma ActionsOfOne(p: Packet)
    ensures ActionsOf([p]) == ActionOf(p)
    ensures AckIds(ActionsOf([p])) == if p.PubAck? then [p.ack.packetId] else []
  {
    assert ActionsOf([p]) == ActionOf(p) + ActionsOf([]);
  }

  lemma OnePubAck(id: u16)
    ensures AckIds(ActionsOf([PubAck(Bare(id))])) == [id]
  {
    ActionsOfOne(PubAck(Bare(id)));
  }

  lemma OneIncoming(w: World, s: S.System, p: Packet, l: Link)
    requires Simulates(w, s, l) && Good(p, l.version)
    ensures Incoming(w.tail + (w.incoming + Encoded(p, l.version)), s.toClient + AckIds(ActionsOf([p])), l.version)
  {
    hide Carried, Sendable, Encoded, Incoming, S.Inv, LoopStands, AllCarry;
    OneEncoding(p, l.version);
    IncomingMore(w.tail + w.incoming, s.toClient, [p], l.version);
    Associative(w.tail, w.incoming, Encoded(p, l.version));
  }

  lemma NothingToRead()
    ensures !FrontOf([]).Whole?
  {
  }

  /** The first packet on the wire is a message exactly when the protocol's queue has it at its head. */
  lemma FrontIsHead(ps: seq<Packet>, bytes: seq<byte>, toBroker: seq<S.Sent>, v: Version)
    requires Written(ps, bytes, toBroker, v) && ps != []
    ensures Written(ps[1..], Concat(Encodings(ps[1..], v)), if IsMessage(ps[0]) then toBroker[1..] else toBroker, v)
    ensures IsMessage(ps[0]) ==> toBroker != [] && ps[0] == PacketFor(toBroker[0])
  {
    hide *;
    UnfoldWritten(ps, bytes, toBroker, v);
    AllCarriedCons(ps, v);
    MessagesStep(ps);
    OnWireStep(toBroker);
    if IsMessage(ps[0]) {
      assert ([ps[0]] + Messages(ps[1..]))[1..] == Messages(ps[1..]);
      assert ([PacketFor(toBroker[0])] + OnWire(toBroker[1..]))[1..] == OnWire(toBroker[1..]);
    } else {
      assert [] + Messages(ps[1..]) == Messages(ps[1..]);
    }
    FoldWritten(ps[1..], Concat(Encodings(ps[1..], v)), if IsMessage(ps[0]) then toBroker[1..] else toBroker, v);
  }

  lemma OnWireStep(toBroker: seq<S.Sent>)
    ensures OnWire(toBroker) == if toBroker == [] then [] else [PacketFor(toBroker[0])] + OnWire(toBroker[1..])
  {
    hide PacketFor;
  }

  lemma UnfoldWritten(ps: seq<Packet>, bytes: seq<byte>, toBroker: seq<S.Sent>, v: Version)
    requires Written(ps, bytes, toBroker, v)
    ensures AllCarried(ps, v) && bytes == Concat(Encodings(ps, v)) && Messages(ps) == OnWire(toBroker)
  {
    hide AllCarried, Messages, OnWire, Concat, Encodings;
  }

  lemma FrontIsRead(ps: seq<Packet>, bytes: seq<byte>, toBroker: seq<S.Sent>, v: Version)
    requires Written(ps, bytes, toBroker, v) && FrontOf(bytes).Whole?
    ensures ps != [] && FrontOf(bytes) == Whole(|Encoded(ps[0], v)|) && FrontOf(bytes).size <= |bytes|
    ensures D.Decode(bytes[..FrontOf(bytes).size], v) == Success(Some(ps[0]))
    ensures bytes[FrontOf(bytes).size..] == Concat(Encodings(ps[1..], v))
  {
    hide AllCarried, Messages, OnWire, FrontOf, D.Decode, Encoded;
    NothingToRead();
    NoEncodings(ps, v);
    PacketAtFront(ps, v, []);
    assert bytes + [] == bytes;
    assert Concat(Encodings(ps[1..], v)) + [] == Concat(Encodings(ps[1..], v));
    WholeIsWithin(bytes);
  }

  lemma MessageCarries(s: S.System, p: Packet)
    requires S.Inv(s) && s.toBroker != [] && p == PacketFor(s.toBroker[0]) && IsMessage(p)
    ensures Carries(p, s.toBroker[0].msg)
  {
    assert s.toBroker[0] in s.toBroker;
    hide S.OneInTransit, S.NoLoss, IdOf;
  }

  /** Reading a message is the protocol's receipt by the broker; reading anything else is no step of it. */
  lemma BrokerReadsRefines(w: World, s: S.System, l: Link) returns (events: seq<S.Event>)
    requires Simulates(w, s, l) && Possible(w, BrokerReads, l)
    ensures S.Runs(s, events) && Simulates(Moved(w, BrokerReads, l), S.After(s, events), l)
  {
    hide *;
    UnfoldSimulates(w, s, l);
    UnfoldStands(w.loop, w.owners, w.replies, s, l);
    UnfoldBrokerReads(w, l);
    var ps := PacketsWritten(w.loop.wire, s.toBroker, l.version);
    FrontIsRead(ps, w.loop.wire, s.toBroker, l.version);
    if IsMessage(ps[0]) {
      events := [S.BrokerReceives];
      MessageRead(w, s, ps, l);
      OneEvent(s, S.BrokerReceives);
    } else {
      events := [];
      NoEvents(s);
      OtherRead(w, s, ps, l);
    }
  }

  lemma PacketsWritten(bytes: seq<byte>, toBroker: seq<S.Sent>, v: Version) returns (ps: seq<Packet>)
    requires Outgoing(bytes, toBroker, v)
    ensures Written(ps, bytes, toBroker, v)
  {
    hide Written;
    ps :| Written(ps, bytes, toBroker, v);
  }

  lemma NoEvents(s: S.System)
    ensures S.Runs(s, []) && S.After(s, []) == s
  {
  }

  lemma OtherRead(w: World, s: S.System, ps: seq<Packet>, l: Link)
    requires Simulates(w, s, l) && Possible(w, BrokerReads, l)
    requires Written(ps, w.loop.wire, s.toBroker, l.version) && ps != [] && !IsMessage(ps[0])
    ensures Simulates(Moved(w, BrokerReads, l), s, l)
  {
    hide *;
    var v, wire := l.version, w.loop.wire;
    UnfoldSimulates(w, s, l);
    UnfoldBrokerReads(w, l);
    FrontIsRead(ps, wire, s.toBroker, v);
    FrontIsHead(ps, wire, s.toBroker, v);
    var n := FrontOf(wire).size;
    IsOutgoing(ps[1..], wire[n..], s.toBroker, v);
    WireChanges(w.loop, w.owners, w.replies, s, s, wire[n..], l);
    BrokerTakesOther(w, ps[0], n, v);
    FoldSimulates(Moved(w, BrokerReads, l), s, l);
  }

  lemma UnfoldSimulates(w: World, s: S.System, l: Link)
    requires Simulates(w, s, l)
    ensures S.Inv(s) && w.up == s.connected
    ensures LoopStands(w.loop, w.owners, w.replies, s, l) && w.loop.ended.None?
    ensures Incoming(w.tail + w.incoming, s.toClient, l.version)
    ensures w.allocations == s.allocations && w.accepted == s.accepted && AllCarry(w.received, s.received)
  {
    hide LoopStands, Incoming, S.Inv, AllCarry;
  }

  lemma FoldSimulates(w: World, s: S.System, l: Link)
    requires S.Inv(s) && w.up == s.connected
    requires LoopStands(w.loop, w.owners, w.replies, s, l) && w.loop.ended.None?
    requires Incoming(w.tail + w.incoming, s.toClient, l.version)
    requires w.allocations == s.allocations && w.accepted == s.accepted && AllCarry(w.received, s.received)
    ensures Simulates(w, s, l)
  {
    hide LoopStands, Incoming, S.Inv, AllCarry;
  }

  lemma UnfoldBrokerReads(w: World, l: Link)
    requires Possible(w, BrokerReads, l)
    ensures w.up && FrontOf(w.loop.wire).Whole? && FrontOf(w.loop.wire).size <= |w.loop.wire|
    ensures var n := FrontOf(w.loop.wire).size;
            Moved(w, BrokerReads, l) == BrokerTakes(w, D.Decode(w.loop.wire[..n], l.version), n, l.version)
  {
    hide FrontOf, D.Decode, BrokerTakes, Moved;
    WholeIsWithin(w.loop.wire);
    MovedBrokerReads(w, l);
  }

  lemma MovedBrokerReads(w: World, l: Link)
    requires Possible(w, BrokerReads, l) && FrontOf(w.loop.wire).Whole?
    requires FrontOf(w.loop.wire).size <= |w.loop.wire|
    ensures var n := FrontOf(w.loop.wire).size;
            Moved(w, BrokerReads, l) == BrokerTakes(w, D.Decode(w.loop.wire[..n], l.version), n, l.version)
  {
    hide FrontOf, D.Decode, BrokerTakes, Possible;
  }

  lemma UnfoldBrokerReceives(s: S.System)
    requires s.connected && s.toBroker != []
    ensures S.Enabled(s, S.BrokerReceives) && S.Fresh(s, S.BrokerReceives)
    ensures var p := s.toBroker[0];
            S.Next(s, S.BrokerReceives) == s.(toBroker := s.toBroker[1..], toClient := s.toClient + [p.id],
                                              received := s.received + [p.msg])
  {
  }

  lemma IsOutgoing(ps: seq<Packet>, bytes: seq<byte>, toBroker: seq<S.Sent>, v: Version)
    requires Written(ps, bytes, toBroker, v)
    ensures Outgoing(bytes, toBroker, v)
  {
    hide Written;
  }

  lemma BrokerTakesOther(w: World, p: Packet, n: nat, v: Version)
    requires n <= |w.loop.wire| && !IsMessage(p)
    ensures BrokerTakes(w, Success(Some(p)), n, v) == w.(loop := w.loop.(wire := w.loop.wire[n..]))
  {
    hide Encoded;
  }

  /** Only the bytes to the broker have changed, along with the queue they stand for. */
  lemma WireChanges(e: Effects, owners: map<Reply, S.Msg>, replies: set<Reply>, s: S.System, t: S.System,
                    wire: seq<byte>, l: Link)
    requires LoopStands(e, owners, replies, s, l) && Outgoing(wire, t.toBroker, l.version)
    requires t.client == s.client && t.notified == s.notified
    ensures LoopStands(e.(wire := wire), owners, replies, t, l)
    ensures LoopStands(e.(wire := wire, ended := None), owners, replies, t, l)
  {
    hide *;
    var h, f, g := Live(e, l), e.(wire := wire), e.(wire := wire, ended := None);
    UnfoldStands(e, owners, replies, s, l);
    UnfoldLive(e, l);
    UnfoldLive(f, l);
    UnfoldLive(g, l);
    SameCallersKnown(h, Live(f, l), owners, s.client.inflight, s.notified);
    SameCallersKnown(h, Live(g, l), owners, s.client.inflight, s.notified);
    SameCallersApart(h, wire, owners, replies);
    FoldStands(f, owners, replies, t, l);
    FoldStands(g, owners, replies, t, l);
  }

  lemma MessageRead(w: World, s: S.System, ps: seq<Packet>, l: Link)
    requires Simulates(w, s, l) && Possible(w, BrokerReads, l)
    requires Written(ps, w.loop.wire, s.toBroker, l.version) && ps != [] && IsMessage(ps[0])
    ensures S.Enabled(s, S.BrokerReceives) && S.Fresh(s, S.BrokerReceives)
    ensures Simulates(Moved(w, BrokerReads, l), S.Next(s, S.BrokerReceives), l)
  {
    hide *;
    var v, wire := l.version, w.loop.wire;
    UnfoldSimulates(w, s, l);
    UnfoldBrokerReads(w, l);
    FrontIsRead(ps, wire, s.toBroker, v);
    FrontIsHead(ps, wire, s.toBroker, v);
    UnfoldBrokerReceives(s);
    var n, p, q := FrontOf(wire).size, ps[0], s.toBroker[0];
    MessageCarries(s, p);
    PubAckIsGood(q.id, v);
    OneIncoming(w, s, PubAck(Bare(q.id)), l);
    OnePubAck(q.id);
    S.StepKeepsInv(s, S.BrokerReceives);
    IsOutgoing(ps[1..], wire[n..], s.toBroker[1..], v);
    WireChanges(w.loop, w.owners, w.replies, s, S.Next(s, S.BrokerReceives), wire[n..], l);
    BrokerTakesMessage(w, q, n, v);
    AllCarryMore(w.received, s.received, p, q.msg);
    FoldSimulates(Moved(w, BrokerReads, l), S.Next(s, S.BrokerReceives), l);
  }

  lemma BrokerTakesMessage(w: World, q: S.Sent, n: nat, v: Version)
    requires n <= |w.loop.wire| && IsMessage(PacketFor(q))
    ensures BrokerTakes(w, Success(Some(PacketFor(q))), n, v)
         == w.(loop := w.loop.(wire := w.loop.wire[n..]), received := w.received + [PacketFor(q)],
               incoming := w.incoming + Encoded(PubAck(Bare(q.id)), v))
  {
    hide Encoded;
  }

  lemma AllCarryMore(ps: seq<Packet>, ms: seq<S.Msg>, p: Packet, m: S.Msg)
    requires AllCarry(ps, ms) && Carries(p, m)
    ensures AllCarry(ps + [p], ms + [m])
  {
    hide Carries;
  }

  lemma PubAckIsGood(id: u16, v: Version)
    ensures Good(PubAck(Bare(id)), v)
  {
    var a := Bare(id);
    assert |AckBytes(a, v)| == 2;
  }

  lemma OneEvent(s: S.System, e: S.Event)
    requires S.Enabled(s, e) && S.Fresh(s, e)
    ensures S.Runs(s, [e]) && S.After(s, [e]) == S.Next(s, e)
  {
    hide S.Enabled, S.Fresh, S.Next;
    assert [e][1..] == [];
  }

  lemma {:induction false} RunsOn(s: S.System, a: seq<S.Event>, b: seq<S.Event>)
    requires S.Runs(s, a) && S.Runs(S.After(s, a), b)
    ensures S.Runs(s, a + b) && S.After(s, a + b) == S.After(S.After(s, a), b)
    decreases |a|
  {
    hide S.Enabled, S.Fresh, S.Next;
    if a == [] {
      assert a + b == b;
    } else {
      assert (a + b)[0] == a[0] && (a + b)[1..] == a[1..] + b;
      RunsOn(S.Next(s, a[0]), a[1..], b);
    }
  }

  // ---- Reading ----

  /** Everything but a PUBACK leaves books and callers alone, and writes no message. */
  lemma OtherActionStands(e: Effects, owners: map<Reply, S.Msg>, replies: set<Reply>, s: S.System, a: Action, l: Link)
    requires LoopStands(e, owners, replies, s, l) && !a.OnPubAck?
    ensures LoopStands(Performed(e, a, l), owners, replies, s, l)
  {
    hide *;
    var h, f := Live(e, l), Performed(e, a, l);
    UnfoldStands(e, owners, replies, s, l);
    LiveOther(e, a, l);
    OthersKeepTheBooks(e, a, l);
    OthersKeepTheBooks(h, a, l);
    OtherActionOutgoing(e, s, a, l);
    OtherActionCallers(h, owners, replies, s, a, l);
    FoldStands(f, owners, replies, s, l);
  }

  lemma LiveOther(e: Effects, a: Action, l: Link)
    requires !a.OnPubAck?
    ensures Live(Performed(e, a, l), l) == Performed(Live(e, l), a, l)
  {
    hide LiveBook, Acknowledgement, Delivery, T.Cleared;
  }

  lemma OtherActionOutgoing(e: Effects, s: S.System, a: Action, l: Link)
    requires Outgoing(e.wire, s.toBroker, l.version) && !a.OnPubAck?
    ensures Outgoing(Performed(e, a, l).wire, s.toBroker, l.version)
  {
    hide Outgoing, T.Cleared, Delivery, Publishing.Sent, Good, Bare;
    assert e.wire + [] == e.wire;
    if a.OnPublish? && a.message.packetId.Some? {
      var id := a.message.packetId.value;
      PubAckIsGood(id, l.version);
      OutgoingNote(e.wire, s.toBroker, PubAck(Bare(id)), l.version, l.capacity);
    }
  }

  lemma OtherActionCallers(e: Effects, owners: map<Reply, S.Msg>, replies: set<Reply>, s: S.System, a: Action, l: Link)
    requires CallersKnown(e, owners, s.client.inflight, s.notified) && CallersApart(e, owners, replies) && !a.OnPubAck?
    ensures var f := Performed(e, a, l);
            CallersKnown(f, owners, s.client.inflight, s.notified) && CallersApart(f, owners, replies)
  {
    hide T.Cleared, Delivery, Acknowledgement;
  }

  /** A PUBACK is the protocol's receipt by the client. */
  lemma AckStands(e: Effects, owners: map<Reply, S.Msg>, replies: set<Reply>, s: S.System, l: Link)
    requires S.Inv(s) && LoopStands(e, owners, replies, s, l) && s.connected && s.toClient != []
    ensures var t := S.Next(s, S.ClientReceives);
            LoopStands(Performed(e, OnPubAck(s.toClient[0]), l), owners, replies, t, l)
  {
    hide *;
    UnfoldClientReceives(s);
    var id, h := s.toClient[0], Live(e, l);
    var f, t := Performed(e, OnPubAck(id), l), S.Next(s, S.ClientReceives);
    UnfoldStands(e, owners, replies, s, l);
    AckedIsInFlight(s);
    SameKeys(h.book, s.client);
    LiveAck(e, id, l);
    UnfoldAck(e, id, l);
    UnfoldAck(h, id, l);
    UnfoldLive(f, l);
    PubAckIsReceipt(h, s, l);
    AckCallers(h, owners, replies, s, l);
    ResendableLess(e.book.inflight, id, l);
    FoldStands(f, owners, replies, t, l);
  }

  lemma AckedIsInFlight(s: S.System)
    requires S.Inv(s) && s.connected && s.toClient != []
    ensures s.toClient[0] in s.client.inflight
  {
    S.ClientReceivesKeepsTransit(s);
    hide S.Next, S.OneInTransit, S.Bookkept, S.NoLoss, S.TransitIsGenuine;
  }

  lemma UnfoldAck(e: Effects, id: u16, l: Link)
    ensures var f := Performed(e, OnPubAck(id), l);
            f.wire == e.wire && f.book == S.Client(e.book.nextId, e.book.inflight - {id})
  {
  }

  lemma LiveAck(e: Effects, id: u16, l: Link)
    requires id in LiveBook(e.book, l).inflight
    ensures Live(Performed(e, OnPubAck(id), l), l) == Performed(Live(e, l), OnPubAck(id), l)
  {
    LiveIsLess(e.book, l);
    LiveRemove(e.book, id, l);
    hide LiveBook;
  }

  lemma LiveRemove(book: S.Client<Pending>, id: u16, l: Link)
    ensures LiveBook(S.Acknowledge(book, id), l) == S.Acknowledge(LiveBook(book, l), id)
  {
    LiveIsLess(book, l);
    LiveIsLess(S.Acknowledge(book, id), l);
    hide LiveBook, IsLive;
    var a, b := LiveBook(S.Acknowledge(book, id), l).inflight, LiveBook(book, l).inflight - {id};
    assert a.Keys == b.Keys;
  }

  lemma ResendableLess(inflight: map<u16, Pending>, id: u16, l: Link)
    requires Resendable(inflight, l)
    ensures Resendable(inflight - {id}, l)
  {
    hide E.Resend, Decent;
  }

  lemma AckCallers(e: Effects, owners: map<Reply, S.Msg>, replies: set<Reply>, s: S.System, l: Link)
    requires CallersKnown(e, owners, s.client.inflight, s.notified) && CallersApart(e, owners, replies)
    requires Represents(e.book, s.client) && s.connected && s.toClient != []
    ensures var f, t := Performed(e, OnPubAck(s.toClient[0]), l), S.Next(s, S.ClientReceives);
            CallersKnown(f, owners, t.client.inflight, t.notified) && CallersApart(f, owners, replies)
  {
  }

  lemma UnfoldClientReceives(s: S.System)
    requires s.connected && s.toClient != []
    ensures S.Enabled(s, S.ClientReceives) && S.Fresh(s, S.ClientReceives)
    ensures var t := S.Next(s, S.ClientReceives);
            t.toClient == s.toClient[1..] && t.toBroker == s.toBroker && SameBesides(s, t)
  {
  }

  /** What a receipt by the client leaves as it is. */
  ghost predicate SameBesides(s: S.System, t: S.System) {
    && t.connected == s.connected && t.allocations == s.allocations && t.accepted == s.accepted
    && t.received == s.received
  }

  /** The PUBACKs among the actions are as many receipts, unless a DISCONNECT comes first. */
  lemma {:induction false} ActionsRefine(e: Effects, owners: map<Reply, S.Msg>, replies: set<Reply>, s: S.System,
                                         actions: seq<Action>, rest: seq<u16>, l: Link)
    returns (events: seq<S.Event>)
    requires S.Inv(s) && LoopStands(e, owners, replies, s, l) && s.connected
    requires s.toClient == AckIds(actions) + rest
    ensures S.Runs(s, events) && SameBesides(s, S.After(s, events))
    ensures LoopStands(PerformedAll(e, actions, l), owners, replies, S.After(s, events), l)
    ensures PerformedAll(e, actions, l).ended.None? ==> S.After(s, events).toClient == rest
    decreases |actions|
  {
    hide *;
    UnfoldPerformedAll(e, actions, l);
    NoEvents(s);
    ReflectSame(s);
    if actions == [] || e.ended.Some? {
      events := [];
      assert AckIds([]) + rest == rest by { NoAcks(rest); }
    } else {
      var a := actions[0];
      AckIdsStep(actions, rest);
      if a.OnPubAck? {
        UnfoldClientReceives(s);
        AckStands(e, owners, replies, s, l);
        S.StepKeepsInv(s, S.ClientReceives);
        UnfoldSame(s, S.Next(s, S.ClientReceives));
        var t := S.Next(s, S.ClientReceives);
        events := ActionsRefine(Performed(e, a, l), owners, replies, t, actions[1..], rest, l);
        RunsAfterFirst(s, S.ClientReceives, events);
        SameTwice(s, t, S.After(t, events));
        events := [S.ClientReceives] + events;
      } else {
        OtherActionStands(e, owners, replies, s, a, l);
        events := ActionsRefine(Performed(e, a, l), owners, replies, s, actions[1..], rest, l);
      }
    }
  }

  lemma UnfoldPerformedAll(e: Effects, actions: seq<Action>, l: Link)
    ensures PerformedAll(e, actions, l)
         == if actions == [] || e.ended.Some? then e else PerformedAll(Performed(e, actions[0], l), actions[1..], l)
  {
    hide Performed;
  }

  lemma NoAcks(rest: seq<u16>)
    ensures AckIds([]) + rest == rest
  {
  }

  lemma AckIdsStep(actions: seq<Action>, rest: seq<u16>)
    requires actions != []
    ensures var ids, later := AckIds(actions) + rest, AckIds(actions[1..]) + rest;
            if actions[0].OnPubAck? then ids != [] && ids[0] == actions[0].id && ids[1..] == later else ids == later
  {
    var ack, later := AckOf(actions[0]), AckIds(actions[1..]);
    assert AckIds(actions) == ack + later;
    hide AckIds;
    Associative(ack, later, rest);
    Halves(ack, later + rest);
    assert [] + (later + rest) == later + rest;
  }

  lemma ReflectSame(s: S.System)
    ensures SameBesides(s, s)
  {
  }

  lemma SameTwice(s: S.System, t: S.System, u: S.System)
    requires SameBesides(s, t) && SameBesides(t, u)
    ensures SameBesides(s, u)
  {
  }

  lemma RunsAfterFirst(s: S.System, e: S.Event, events: seq<S.Event>)
    requires S.Enabled(s, e) && S.Fresh(s, e) && S.Runs(S.Next(s, e), events)
    ensures S.Runs(s, [e] + events) && S.After(s, [e] + events) == S.After(S.Next(s, e), events)
  {
    hide S.Enabled, S.Fresh, S.Next;
    assert ([e] + events)[1..] == events;
  }

  /** What the session keeps over a dropped connection. */
  lemma DownRefines(w: World, s: S.System, l: Link)
    requires S.Inv(s) && s.connected && LoopStands(w.loop, w.owners, w.replies, s, l)
    requires w.allocations == s.allocations && w.accepted == s.accepted && AllCarry(w.received, s.received)
    ensures S.Enabled(s, S.Drop) && S.Fresh(s, S.Drop)
    ensures Simulates(Down(w), S.Next(s, S.Drop), l)
  {
    NothingUnderWay(l.version);
    S.StepKeepsInv(s, S.Drop);
    WireChanges(w.loop, w.owners, w.replies, s, S.Next(s, S.Drop), [], l);
    hide S.Inv, LoopStands, Outgoing, Incoming, AllCarry;
    assert Down(w).tail + Down(w).incoming == [];
  }

  lemma DropRefines(w: World, s: S.System, l: Link)
    requires Simulates(w, s, l) && Possible(w, Drop, l)
    ensures S.Enabled(s, S.Drop) && S.Fresh(s, S.Drop)
    ensures Simulates(Moved(w, Drop, l), S.Next(s, S.Drop), l)
  {
    hide S.Inv, LoopStands, Incoming, AllCarry, S.Next, Down;
    DownRefines(w, s, l);
  }

  /** The packets whose frames a read completes, and what is left of the others. */
  lemma ReadTakes(tail: seq<byte>, incoming: seq<byte>, size: nat, toClient: seq<u16>, v: Version)
    returns (here: seq<Packet>, later: seq<u16>)
    requires Incoming(tail + incoming, toClient, v) && size <= |incoming|
    ensures AllCarried(here, v) && Actions(Frames(tail + incoming[..size]), v, []) == Success(ActionsOf(here))
    ensures |Concat(Encodings(here, v))| + |Tail(tail + incoming[..size])| == |tail| + size
    ensures toClient == AckIds(ActionsOf(here)) + later
    ensures Incoming(Tail(tail + incoming[..size]) + incoming[size..], later, v)
  {
    var qs := PacketsComing(tail + incoming, toClient, v);
    hide *;
    var data := tail + incoming[..size];
    SplitRead(tail, incoming, size);
    UnfoldAnswered(qs, tail + incoming, toClient, v);
    var k := FramesOfPrefix(qs, v, |data|);
    here, later := qs[..k], AckIds(ActionsOf(qs[k..]));
    assert qs == here + qs[k..];
    AllCarriedHalves(here, qs[k..], v);
    ActionsOfEncodings(here, v, []);
    assert [] + ActionsOf(here) == ActionsOf(here);
    ActionsOfAppend(here, qs[k..]);
    AckIdsAppend(ActionsOf(here), ActionsOf(qs[k..]));
    IsIncoming(qs[k..], v);
    FramesAndTail(data);
  }

  lemma PacketsComing(bytes: seq<byte>, toClient: seq<u16>, v: Version) returns (qs: seq<Packet>)
    requires Incoming(bytes, toClient, v)
    ensures Answered(qs, bytes, toClient, v)
  {
    hide Answered;
    qs :| Answered(qs, bytes, toClient, v);
  }

  lemma UnfoldAnswered(qs: seq<Packet>, bytes: seq<byte>, toClient: seq<u16>, v: Version)
    requires Answered(qs, bytes, toClient, v)
    ensures AllCarried(qs, v) && bytes == Concat(Encodings(qs, v)) && AckIds(ActionsOf(qs)) == toClient
  {
    hide AllCarried, AckIds, ActionsOf, Concat, Encodings;
  }

  lemma IsIncoming(qs: seq<Packet>, v: Version)
    requires AllCarried(qs, v)
    ensures Incoming(Concat(Encodings(qs, v)), AckIds(ActionsOf(qs)), v)
  {
    hide AllCarried, AckIds, ActionsOf, Concat, Encodings;
    assert Answered(qs, Concat(Encodings(qs, v)), AckIds(ActionsOf(qs)), v);
  }

  lemma SplitRead(tail: seq<byte>, incoming: seq<byte>, size: nat)
    requires size <= |incoming|
    ensures var all, data := tail + incoming, tail + incoming[..size];
            |data| <= |all| && all[..|data|] == data && all[|data|..] == incoming[size..]
  {
    var all, data := tail + incoming, tail + incoming[..size];
    assert all == data + incoming[size..];
    Halves(data, incoming[size..]);
  }

  /** A read is as many receipts as it completes PUBACKs; a DISCONNECT among its frames ends the connection. */
  lemma ClientReadsRefines(w: World, s: S.System, size: nat, closed: set<T.Sender>, l: Link)
    returns (events: seq<S.Event>)
    requires Simulates(w, s, l) && Possible(w, ClientReads(size, closed), l)
    ensures S.Runs(s, events) && Simulates(Moved(w, ClientReads(size, closed), l), S.After(s, events), l)
  {
    hide *;
    UnfoldSimulates(w, s, l);
    UnfoldClientReads(w, size, closed, l);
    var data, l' := w.tail + w.incoming[..size], l.(closed := closed);
    var here, later := ReadTakes(w.tail, w.incoming, size, s.toClient, l.version);
    UnfoldReadEffects(w.loop, data, ActionsOf(here), l');
    SameLink(w.loop, w.owners, w.replies, s, l, l');
    events := ActionsRefine(w.loop, w.owners, w.replies, s, ActionsOf(here), later, l');
    var t := S.After(s, events);
    var r := w.(loop := ReadEffects(w.loop, data, l'), tail := Tail(data), incoming := w.incoming[size..]);
    SameLink(r.loop, w.owners, w.replies, t, l', l);
    S.RunsKeepInv(s, events);
    UnfoldSame(s, t);
    if r.loop.ended.Some? {
      DownRefines(r, t, l);
      OneEvent(t, S.Drop);
      RunsOn(s, events, [S.Drop]);
      events := events + [S.Drop];
    } else {
      FoldSimulates(r, t, l);
    }
  }

  lemma UnfoldClientReads(w: World, size: nat, closed: set<T.Sender>, l: Link)
    requires Possible(w, ClientReads(size, closed), l)
    ensures w.up && 0 < size <= |w.incoming| && !Stuck(w.tail + w.incoming[..size])
    ensures var data := w.tail + w.incoming[..size];
            var r := w.(loop := ReadEffects(w.loop, data, l.(closed := closed)), tail := Tail(data),
                        incoming := w.incoming[size..]);
            Moved(w, ClientReads(size, closed), l) == if r.loop.ended.Some? then Down(r) else r
  {
    hide ReadEffects, Tail, Down, Stuck;
  }

  lemma SameLink(e: Effects, owners: map<Reply, S.Msg>, replies: set<Reply>, s: S.System, l: Link, k: Link)
    requires LoopStands(e, owners, replies, s, l) && k.version == l.version && k.capacity == l.capacity
    ensures LoopStands(e, owners, replies, s, k)
  {
    assert forall id, entry :: IsLive(id, entry, l) <==> IsLive(id, entry, k);
    assert LiveBook(e.book, l).inflight == LiveBook(e.book, k).inflight;
    hide Represents, Outgoing, CallersKnown, CallersApart, E.Resend, IsLive, Fits, Carried, Sendable, LiveBook;
  }

  lemma UnfoldSame(s: S.System, t: S.System)
    requires SameBesides(s, t)
    ensures t.connected == s.connected && t.allocations == s.allocations && t.accepted == s.accepted
    ensures t.received == s.received
  {
  }

  // ---- Recovery ----

  function Allocations(n: nat): seq<S.Event> {
    if n == 0 then [] else [S.Allocate] + Allocations(n - 1)
  }

  /** Identifiers for the resubscriptions. */
  lemma {:induction false} AllocationsRun(s: S.System, n: nat)
    requires s.connected
    ensures S.Runs(s, Allocations(n))
    ensures S.After(s, Allocations(n))
         == s.(client := S.Client(E.IdAfterAll(s.client.nextId, n), s.client.inflight),
              allocations := s.allocations + n)
    decreases n
  {
    hide NextId, S.Fresh;
    if n > 0 {
      assert Allocations(n)[1..] == Allocations(n - 1);
      assert S.Fresh(s, S.Allocate) by { NotPublish(s, S.Allocate); }
      AllocationsRun(S.Next(s, S.Allocate), n - 1);
    }
  }

  lemma NotPublish(s: S.System, e: S.Event)
    requires !e.Publish?
    ensures S.Fresh(s, e)
  {
  }

  lemma {:induction false} OutgoingNotes(bytes: seq<byte>, toBroker: seq<S.Sent>, ps: seq<Packet>, v: Version,
                                         capacity: nat)
    requires Outgoing(bytes, toBroker, v) && AllCarried(ps, v) && forall p :: p in ps ==> !IsMessage(p)
    ensures Outgoing(bytes + SentAll(ps, v, capacity), toBroker, v)
    decreases |ps|
  {
    hide Outgoing, Carried, Sendable, IsMessage, Publishing.Sent;
    if ps == [] {
      assert bytes + [] == bytes;
    } else {
      AllCarriedCons(ps, v);
      OutgoingNote(bytes, toBroker, ps[0], v, capacity);
      var front := Publishing.Sent(ps[0], v, capacity);
      OutgoingNotes(bytes + front, toBroker, ps[1..], v, capacity);
      Associative(bytes, front, SentAll(ps[1..], v, capacity));
    }
  }

  lemma {:induction false} NoMessages(filters: seq<seq<byte>>, active: map<seq<byte>, QoS>, nextId: u16)
    requires forall f :: f in filters ==> f in active
    ensures forall p :: p in E.Resubscriptions(filters, active, nextId) ==> !IsMessage(p)
    decreases |filters|
  {
    hide NextId;
    if filters != [] {
      NoMessages(filters[1..], active, NextId(nextId));
    }
  }

  /** The identifiers in the order that the broker hears of. */
  function LiveOrder(order: seq<u16>, inflight: map<u16, Pending>, l: Link): (live: seq<u16>)
    requires forall id :: id in order ==> id in inflight
    ensures forall id :: id in live ==> id in inflight
  {
    if order == [] then []
    else (if IsLive(order[0], inflight[order[0]], l) then [order[0]] else []) + LiveOrder(order[1..], inflight, l)
  }

  lemma {:induction false} LiveOrderCounts(order: seq<u16>, inflight: map<u16, Pending>, l: Link, id: u16)
    requires forall i :: i in order ==> i in inflight
    ensures multiset(LiveOrder(order, inflight, l))[id]
         == if id in inflight && IsLive(id, inflight[id], l) then multiset(order)[id] else 0
  {
    hide IsLive;
    if order != [] {
      var front := if IsLive(order[0], inflight[order[0]], l) then [order[0]] else [];
      var later := LiveOrder(order[1..], inflight, l);
      LiveOrderCounts(order[1..], inflight, l, id);
      assert order == [order[0]] + order[1..];
      assert multiset(order) == multiset{order[0]} + multiset(order[1..]);
      assert multiset(front + later) == multiset(front) + multiset(later);
    }
  }

  lemma LiveOrderLists(order: seq<u16>, book: S.Client<Pending>, l: Link)
    requires S.Lists(order, book.inflight) && forall id :: id in order ==> id in book.inflight
    ensures S.Lists(LiveOrder(order, book.inflight, l), LiveBook(book, l).inflight)
  {
    var a, live := LiveOrder(order, book.inflight, l), LiveBook(book, l).inflight;
    LiveIsLess(book, l);
    var listed: multiset<u16>, keys: multiset<u16> := multiset(a), multiset(live.Keys);
    forall id: u16 ensures listed[id] == keys[id] {
      LiveOrderCounts(order, book.inflight, l, id);
      assert multiset(order) == multiset(book.inflight.Keys);
    }
    hide LiveOrder, LiveBook;
    assert listed == keys;
  }

  function Fitting(ps: seq<Packet>, l: Link): seq<Packet> {
    if ps == [] then []
    else (if Fits(ps[0], l.version, l.capacity) then [ps[0]] else []) + Fitting(ps[1..], l)
  }

  /** What is resent in bytes, and the messages in it. */
  lemma {:induction false} ResentIsWritten(order: seq<u16>, inflight: map<u16, Pending>, l: Link)
    requires (forall id :: id in order ==> id in inflight) && Resendable(inflight, l)
    ensures var all := E.Resends(order, inflight);
            var ps := Fitting(all, l);
            && AllCarried(ps, l.version) && SentAll(all, l.version, l.capacity) == Concat(Encodings(ps, l.version))
            && Messages(ps) == E.Resends(LiveOrder(order, inflight, l), inflight)
    decreases |order|
  {
    hide *;
    UnfoldResends(order, inflight, l);
    NoEncodings([], l.version);
    if order == [] {
      UnfoldFitting([], l);
    } else {
      var p, all := E.Resend(order[0], inflight[order[0]]), E.Resends(order, inflight);
      ResentIsWritten(order[1..], inflight, l);
      UnfoldFitting(all, l);
      ResentPacket(order[0], inflight, l);
      var later := Fitting(all[1..], l);
      if Fits(p, l.version, l.capacity) {
        EncodingsCons([p] + later, l.version);
        AllCarriedMore(p, later, l.version);
        MessagesStep([p] + later);
        assert ([p] + later)[1..] == later;
      } else {
        assert [] + later == later && [] + Concat(Encodings(later, l.version)) == Concat(Encodings(later, l.version));
      }
      assert [] + E.Resends(LiveOrder(order[1..], inflight, l), inflight)
          == E.Resends(LiveOrder(order[1..], inflight, l), inflight);
    }
  }

  lemma AllCarriedMore(p: Packet, ps: seq<Packet>, v: Version)
    requires Good(p, v) && AllCarried(ps, v)
    ensures AllCarried([p] + ps, v)
  {
    hide Carried, Sendable;
  }

  lemma UnfoldFitting(ps: seq<Packet>, l: Link)
    ensures Fitting(ps, l)
         == if ps == [] then []
            else (if Fits(ps[0], l.version, l.capacity) then [ps[0]] else []) + Fitting(ps[1..], l)
    ensures SentAll(ps, l.version, l.capacity)
         == if ps == [] then []
            else (if Fits(ps[0], l.version, l.capacity) then Encoded(ps[0], l.version) else [])
                 + SentAll(ps[1..], l.version, l.capacity)
    ensures AllCarried([], l.version) && Messages([]) == []
  {
    hide Fits, Encoded;
  }

  lemma UnfoldResends(order: seq<u16>, inflight: map<u16, Pending>, l: Link)
    requires forall id :: id in order ==> id in inflight
    ensures E.Resends(order, inflight)
         == if order == [] then []
            else [E.Resend(order[0], inflight[order[0]])] + E.Resends(order[1..], inflight)
    ensures E.Resends(LiveOrder(order, inflight, l), inflight)
         == if order == [] then []
            else (if IsLive(order[0], inflight[order[0]], l) then [E.Resend(order[0], inflight[order[0]])] else [])
                 + E.Resends(LiveOrder(order[1..], inflight, l), inflight)
    ensures forall id :: id in LiveOrder(order, inflight, l) ==> id in inflight
  {
    hide E.Resend, IsLive;
    if order != [] {
      var later := LiveOrder(order[1..], inflight, l);
      if IsLive(order[0], inflight[order[0]], l) {
        assert LiveOrder(order, inflight, l) == [order[0]] + later;
        assert ([order[0]] + later)[1..] == later;
      } else {
        assert LiveOrder(order, inflight, l) == [] + later;
      }
    }
  }

  lemma ResentPacket(id: u16, inflight: map<u16, Pending>, l: Link)
    requires id in inflight && Resendable(inflight, l)
    ensures var p := E.Resend(id, inflight[id]);
            Fits(p, l.version, l.capacity) ==> Good(p, l.version) && (IsMessage(p) <==> IsLive(id, inflight[id], l))
    ensures IsLive(id, inflight[id], l) ==> Fits(E.Resend(id, inflight[id]), l.version, l.capacity)
  {
    hide Carried, Sendable, Fits;
  }

  lemma {:induction false} SameResends(order: seq<u16>, a: map<u16, Pending>, b: map<u16, Pending>)
    requires forall id :: id in order ==> id in a && id in b && a[id] == b[id]
    ensures E.Resends(order, a) == E.Resends(order, b)
  {
    hide E.Resend;
    if order != [] {
      SameResends(order[1..], a, b);
    }
  }

  /** Recovery never makes an encoder panic. */
  lemma ResendsNeverPanic(w: World, s: S.System, l: Link)
    requires Simulates(w, s, l)
    ensures forall id :: id in w.loop.book.inflight ==>
                           !Encoder.Panics(E.Resend(id, w.loop.book.inflight[id]), l.version, l.capacity)
  {
    hide *;
    UnfoldSimulates(w, s, l);
    UnfoldStands(w.loop, w.owners, w.replies, s, l);
    forall id | id in w.loop.book.inflight
      ensures !Encoder.Panics(E.Resend(id, w.loop.book.inflight[id]), l.version, l.capacity)
    {
      ResentIsSendable(id, w.loop.book.inflight, l);
      SendableNeverPanics(E.Resend(id, w.loop.book.inflight[id]), l.version, l.capacity);
    }
  }

  lemma ResentIsSendable(id: u16, inflight: map<u16, Pending>, l: Link)
    requires id in inflight && Resendable(inflight, l)
    ensures Sendable(E.Resend(id, inflight[id]), l.version) && !E.Resend(id, inflight[id]).Disconnect?
  {
    hide Carried, Sendable, Fits;
  }

  /**
   Resending is the protocol's reconnection, as far as the broker hears of it, and each subscription asked for again
   takes an identifier.
   */
  lemma RecoverRefines(w: World, s: S.System, order: seq<u16>, filters: seq<seq<byte>>, active: map<seq<byte>, QoS>,
                       l: Link)
    returns (events: seq<S.Event>)
    requires Simulates(w, s, l) && Possible(w, Recover(order, filters, active), l)
    ensures S.Runs(s, events) && Simulates(Moved(w, Recover(order, filters, active), l), S.After(s, events), l)
  {
    hide *;
    var book, h := w.loop.book, Live(w.loop, l);
    UnfoldSimulates(w, s, l);
    UnfoldStands(w.loop, w.owners, w.replies, s, l);
    UnfoldRecover(w, order, filters, active, l);
    LiveOrderLists(order, book, l);
    var live := LiveOrder(order, book.inflight, l);
    RecoveryIsReconnect(h.book, s, live);
    UnfoldReconnect(s, live);
    var t := S.Next(s, S.Reconnect(live));
    AllocationsRun(t, |filters|);
    RunsAfterFirst(s, S.Reconnect(live), Allocations(|filters|));
    events := [S.Reconnect(live)] + Allocations(|filters|);
    var u := S.After(t, Allocations(|filters|));
    ResentIsWritten(order, book.inflight, l);
    LiveIsLess(book, l);
    SameResends(live, h.book.inflight, book.inflight);
    var resent := SentAll(E.Resends(order, book.inflight), l.version, l.capacity);
    FoldWritten(Fitting(E.Resends(order, book.inflight), l), resent, t.toBroker, l.version);
    IsOutgoing(Fitting(E.Resends(order, book.inflight), l), resent, t.toBroker, l.version);
    var again := E.Resubscriptions(filters, active, book.nextId);
    NoMessages(filters, active, book.nextId);
    OutgoingNotes(resent, t.toBroker, again, l.version, l.capacity);
    var r := Moved(w, Recover(order, filters, active), l);
    UnfoldLive(r.loop, l);
    LiveNextId(book, r.loop.book.nextId, l);
    SameCallersKnown(h, Live(r.loop, l), w.owners, s.client.inflight, s.notified);
    SameRequests(h, Live(r.loop, l), w.owners, w.replies);
    SameBooks(h.book, s.client, r.loop.book.nextId);
    FoldStands(r.loop, w.owners, w.replies, u, l);
    S.RunsKeepInv(s, events);
    FoldSimulates(r, u, l);
  }

  lemma FoldWritten(ps: seq<Packet>, bytes: seq<byte>, toBroker: seq<S.Sent>, v: Version)
    requires AllCarried(ps, v) && bytes == Concat(Encodings(ps, v)) && Messages(ps) == OnWire(toBroker)
    ensures Written(ps, bytes, toBroker, v)
  {
    hide AllCarried, Messages, OnWire, Concat, Encodings;
  }

  lemma LiveNextId(book: S.Client<Pending>, nextId: u16, l: Link)
    ensures LiveBook(S.Client(nextId, book.inflight), l) == S.Client(nextId, LiveBook(book, l).inflight)
  {
    hide IsLive;
    assert LiveBook(S.Client(nextId, book.inflight), l).inflight == LiveBook(book, l).inflight;
  }

  lemma UnfoldRecover(w: World, order: seq<u16>, filters: seq<seq<byte>>, active: map<seq<byte>, QoS>, l: Link)
    requires Possible(w, Recover(order, filters, active), l)
    ensures !w.up && S.Lists(order, w.loop.book.inflight)
    ensures (forall id :: id in order ==> id in w.loop.book.inflight) && (forall f :: f in filters ==> f in active)
    ensures AllCarried(E.Resubscriptions(filters, active, w.loop.book.nextId), l.version)
    ensures var book, v := w.loop.book, l.version;
            Moved(w, Recover(order, filters, active), l)
            == w.(up := true, allocations := w.allocations + |filters|,
                  loop := w.loop.(
                    book := S.Client(E.IdAfterAll(book.nextId, |filters|), book.inflight),
                    wire := SentAll(E.Resends(order, book.inflight), v, l.capacity)
                            + SentAll(E.Resubscriptions(filters, active, book.nextId), v, l.capacity)))
  {
    hide AllCarried, SentAll, E.Resubscriptions, E.Resends, E.IdAfterAll, S.Lists;
  }

  lemma UnfoldReconnect(s: S.System, order: seq<u16>)
    requires !s.connected && S.Lists(order, s.client.inflight)
    ensures S.Enabled(s, S.Reconnect(order)) && S.Fresh(s, S.Reconnect(order))
    ensures var t := S.Next(s, S.Reconnect(order));
            && t.connected && SameBesides(s.(connected := true), t)
            && t.client == s.client && t.toClient == s.toClient && t.notified == s.notified
            && t.allocations == s.allocations && t.accepted == s.accepted && t.received == s.received
  {
    hide S.Lists, S.Resent;
  }

  lemma SameRequests(e: Effects, f: Effects, owners: map<Reply, S.Msg>, replies: set<Reply>)
    requires CallersApart(e, owners, replies)
    requires f.told == e.told && f.subscribes == e.subscribes && f.unsubscribes == e.unsubscribes
    ensures CallersApart(f, owners, replies)
  {
  }

  lemma SameBooks(book: S.Client<Pending>, c: S.Client<S.Msg>, nextId: u16)
    requires Represents(book, c)
    ensures Represents(S.Client(nextId, book.inflight), S.Client(nextId, c.inflight))
  {
  }

  // ---- Runs ----

  /** Every step of the bytes is a run of the protocol, possibly an empty one. */
  lemma StepRefines(w: World, s: S.System, step: Step, l: Link) returns (events: seq<S.Event>)
    requires Simulates(w, s, l) && Possible(w, step, l)
    ensures S.Runs(s, events) && Simulates(Moved(w, step, l), S.After(s, events), l)
  {
    hide *;
    NoEvents(s);
    match step {
      case Send(m, ack) =>
        events := SendRefines(w, s, m, ack, l);
      case SendAll(ms) =>
        events := SendAllRefines(w, s, ms, l);
      case Ask(filter, qos, reply, regs) =>
        AskRefines(w, s, filter, qos, reply, regs, l);
        OneEvent(s, S.Allocate);
        events := [S.Allocate];
      case Leave(filter, reply, regs) =>
        LeaveRefines(w, s, filter, reply, regs, l);
        OneEvent(s, S.Allocate);
        events := [S.Allocate];
      case Pass(p) =>
        PassRefines(w, s, p, l);
        events := [];
      case BrokerReads =>
        events := BrokerReadsRefines(w, s, l);
      case BrokerWrites(p) =>
        BrokerWritesRefines(w, s, p, l);
        events := [];
      case ClientReads(size, closed) =>
        events := ClientReadsRefines(w, s, size, closed, l);
      case Drop =>
        DropRefines(w, s, l);
        OneEvent(s, S.Drop);
        events := [S.Drop];
      case Recover(order, filters, active) =>
        events := RecoverRefines(w, s, order, filters, active, l);
    }
  }

  /** Every run of the bytes refines a run of the protocol. */
  lemma {:induction false} RunsRefine(w: World, s: S.System, steps: seq<Step>, l: Link) returns (events: seq<S.Event>)
    requires Simulates(w, s, l) && Goes(w, steps, l)
    ensures S.Runs(s, events) && Simulates(Reached(w, steps, l), S.After(s, events), l)
    decreases |steps|
  {
    hide Simulates, Possible, Moved, S.Runs, S.After;
    if steps == [] {
      NoEvents(s);
      events := [];
    } else {
      var first := StepRefines(w, s, steps[0], l);
      var later := RunsRefine(Moved(w, steps[0], l), S.After(s, first), steps[1..], l);
      RunsOn(s, first, later);
      events := first + later;
    }
  }

  /** A message that is still in flight, under its own identifier. */
  predicate Held(w: World, m: S.Msg) {
    && IdOf(m.ticket) in w.loop.book.inflight
    && w.loop.book.inflight[IdOf(m.ticket)].0 == m.content.(packetId := Some(IdOf(m.ticket)))
  }

  ghost predicate Delivered(w: World, m: S.Msg) {
    exists p :: p in w.received && Carries(p, m)
  }

  /**
   At least once, over bytes: after every run each QoS 1 message that the encoder took has been decoded by the broker or
   is still in flight, what the broker has decoded was accepted, and a caller who waited for a PUBACK and was told has a
   message the broker has decoded.
   */
  lemma BytesAtLeastOnce(steps: seq<Step>, l: Link)
    requires Goes(Start(), steps, l)
    ensures var w := Reached(Start(), steps, l);
            && (forall m :: m in w.accepted ==> Delivered(w, m) || Held(w, m))
            && (forall p :: p in w.received ==> exists m :: m in w.accepted && Carries(p, m))
            && (forall r :: r in w.loop.told && r in w.owners ==> Delivered(w, w.owners[r]))
  {
    hide *;
    StartSimulates(l);
    var events := RunsRefine(Start(), S.Initial(), steps, l);
    var w, s := Reached(Start(), steps, l), S.After(S.Initial(), events);
    UnfoldSimulates(w, s, l);
    S.AtLeastOnce(events);
    forall m | m in w.accepted ensures Delivered(w, m) || Held(w, m) {
      if m in s.received {
        ReceivedIsDelivered(w, s.received, m);
      } else {
        OutstandingIsHeld(w, s, m, l);
      }
    }
    forall p | p in w.received ensures exists m :: m in w.accepted && Carries(p, m) {
      var m := MessageOf(w.received, s.received, p);
      assert m in w.accepted && Carries(p, m);
    }
    forall r | r in w.loop.told && r in w.owners ensures Delivered(w, w.owners[r]) {
      ToldIsNotified(w, s, r, l);
      ReceivedIsDelivered(w, s.received, w.owners[r]);
    }
  }

  lemma ReceivedIsDelivered(w: World, received: seq<S.Msg>, m: S.Msg)
    requires AllCarry(w.received, received) && m in received
    ensures Delivered(w, m)
  {
    hide Carries;
    var i :| 0 <= i < |received| && received[i] == m;
    assert w.received[i] in w.received && Carries(w.received[i], m);
  }

  lemma MessageOf(ps: seq<Packet>, received: seq<S.Msg>, p: Packet) returns (m: S.Msg)
    requires AllCarry(ps, received) && p in ps
    ensures m in received && Carries(p, m)
  {
    hide Carries;
    var i :| 0 <= i < |ps| && ps[i] == p;
    m := received[i];
  }

  lemma OutstandingIsHeld(w: World, s: S.System, m: S.Msg, l: Link)
    requires Simulates(w, s, l) && S.Outstanding(s, m)
    ensures Held(w, m)
  {
    hide *;
    UnfoldSimulates(w, s, l);
    UnfoldStands(w.loop, w.owners, w.replies, s, l);
    LiveIsLess(w.loop.book, l);
    HeldHere(w, LiveBook(w.loop.book, l), s, m);
  }

  lemma HeldHere(w: World, book: S.Client<Pending>, s: S.System, m: S.Msg)
    requires Represents(book, s.client) && S.Outstanding(s, m)
    requires forall id :: id in book.inflight ==>
                            id in w.loop.book.inflight && book.inflight[id] == w.loop.book.inflight[id]
    ensures Held(w, m)
  {
    SameKeys(book, s.client);
    hide IdOf;
  }

  lemma ToldIsNotified(w: World, s: S.System, r: Reply, l: Link)
    requires Simulates(w, s, l) && r in w.loop.told && r in w.owners
    ensures w.owners[r] in s.notified
  {
    hide S.Inv, Outgoing, Incoming, CallersApart, Resendable, AllCarry, Represents, LiveBook;
  }
}
