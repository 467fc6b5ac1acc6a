/** The event loop of the Tokio client (crates/mqtt-tokio/src/eventloop.rs). */
module EventLoop {
  import opened Wrappers
  import opened Bytes
  import opened PacketErrors
  import opened Fields
  import opened Packets
  import opened Encoder
  import opened Decoder
  import opened Framing
  import opened PacketIds
  import opened Publishing
  import opened Receiving
  import opened Bursts
  import opened RoundTrip
  import opened Router
  import S = Session
  import T = Trie
  import Topics

  // ---- Session recovery ----

  /** An in-flight message goes out again under its identifier, with DUP set. */
  function Resend(id: u16, entry: Pending): Packet {
    PacketOf(entry.0.(dup := true), Some(id))
  }

  function Resends(order: seq<u16>, inflight: map<u16, Pending>): (ps: seq<Packet>)
    requires forall id :: id in order ==> id in inflight
    ensures |ps| == |order|
    ensures forall i :: 0 <= i < |ps| ==>
              var m := inflight[order[i]].0;
              ps[i] == Publish(true, m.qos, m.retain, m.topic, Some(order[i]), m.payload, [])
  {
    if order == [] then [] else [Resend(order[0], inflight[order[0]])] + Resends(order[1..], inflight)
  }

  function SubscribeFor(id: u16, filter: seq<byte>, qos: QoS): Packet {
    Subscribe(id, [(filter, qos)], [])
  }

  /** Every active subscription is asked for again, each under a new identifier. */
  function Resubscriptions(filters: seq<seq<byte>>, active: map<seq<byte>, QoS>, nextId: u16): (ps: seq<Packet>)
    requires forall f :: f in filters ==> f in active
    ensures |ps| == |filters|
    decreases |filters|
  {
    if filters == [] then []
    else [SubscribeFor(nextId, filters[0], active[filters[0]])] + Resubscriptions(filters[1..], active, NextId(nextId))
  }

  function IdAfterAll(nextId: u16, n: nat): u16
    decreases n
  {
    if n == 0 then nextId else IdAfterAll(NextId(nextId), n - 1)
  }

  lemma {:induction false} SentAllAppend(a: seq<Packet>, b: seq<Packet>, v: Version, capacity: nat)
    ensures SentAll(a + b, v, capacity) == SentAll(a, v, capacity) + SentAll(b, v, capacity)
    decreases |a|
  {
    hide Sent;
    if a == [] {
      assert a + b == b;
    } else {
      assert (a + b)[0] == a[0] && (a + b)[1..] == a[1..] + b;
      SentAllAppend(a[1..], b, v, capacity);
      var x, y, z := Sent(a[0], v, capacity), SentAll(a[1..], v, capacity), SentAll(b, v, capacity);
      assert x + (y + z) == x + y + z;
    }
  }

  lemma ResendStep(order: seq<u16>, i: nat, inflight: map<u16, Pending>, wire: seq<byte>, v: Version, capacity: nat)
    requires i < |order| && forall id :: id in order ==> id in inflight
    ensures wire + SentAll(Resends(order[i..], inflight), v, capacity)
         == wire + Sent(Resend(order[i], inflight[order[i]]), v, capacity)
            + SentAll(Resends(order[i + 1..], inflight), v, capacity)
  {
    hide Sent, Resend, PacketOf;
    var p, later := Resend(order[i], inflight[order[i]]), Resends(order[i + 1..], inflight);
    assert order[i..][1..] == order[i + 1..];
    assert Resends(order[i..], inflight) == [p] + later;
    Associative(wire, Sent(p, v, capacity), SentAll(later, v, capacity));
  }

  lemma NothingResent(inflight: map<u16, Pending>, v: Version, capacity: nat)
    ensures SentAll(Resends([], inflight), v, capacity) == []
  {
  }

  lemma ResubscribeStep(filters: seq<seq<byte>>, i: nat, active: map<seq<byte>, QoS>, id: u16, wire: seq<byte>,
                        v: Version, capacity: nat)
    requires i < |filters| && forall f :: f in filters ==> f in active
    ensures wire + SentAll(Resubscriptions(filters[i..], active, id), v, capacity)
         == wire + Sent(SubscribeFor(id, filters[i], active[filters[i]]), v, capacity)
            + SentAll(Resubscriptions(filters[i + 1..], active, NextId(id)), v, capacity)
  {
    hide Sent, SubscribeFor, NextId;
    var p := SubscribeFor(id, filters[i], active[filters[i]]);
    var later := Resubscriptions(filters[i + 1..], active, NextId(id));
    assert filters[i..][1..] == filters[i + 1..];
    assert Resubscriptions(filters[i..], active, id) == [p] + later;
    assert wire + (Sent(p, v, capacity) + SentAll(later, v, capacity))
        == wire + Sent(p, v, capacity) + SentAll(later, v, capacity);
  }

  lemma ResubscribeEnd(filters: seq<seq<byte>>, active: map<seq<byte>, QoS>, id: u16, wire: seq<byte>, v: Version,
                       capacity: nat)
    requires forall f :: f in filters ==> f in active
    ensures wire + SentAll(Resubscriptions(filters[|filters|..], active, id), v, capacity) == wire
    ensures IdAfterAll(id, 0) == id
  {
    assert wire + [] == wire;
  }

  lemma IdAfterOneMore(id: u16, n: nat)
    requires n > 0
    ensures IdAfterAll(id, n) == IdAfterAll(NextId(id), n - 1)
  {
  }

  /** Over any reads the broker decodes the recovery into the resent messages and then the subscriptions. */
  lemma RecoveryDelivers(resends: seq<Packet>, resubscriptions: seq<Packet>, v: Version, capacity: nat,
                         chunks: seq<seq<byte>>)
    requires AllFit(resends + resubscriptions, v, capacity) && AllCarried(resends + resubscriptions, v)
    requires Concat(chunks) == SentAll(resends, v, capacity) + SentAll(resubscriptions, v, capacity)
    ensures DecodeAll(FramesOfReads([], chunks), v) == Framing.Received(resends + resubscriptions)
  {
    hide AllCarried, AllFit, FramesOfReads, DecodeAll, Framing.Received, Encodings, SentAll;
    SentAllAppend(resends, resubscriptions, v, capacity);
    AllFitIsSent(resends + resubscriptions, v, capacity);
    PeerReceives(resends + resubscriptions, v, chunks);
  }

  /** Resubscriptions carry filter and QoS of the subscription, under consecutive identifiers. */
  lemma {:induction false} ResubscriptionsAre(filters: seq<seq<byte>>, active: map<seq<byte>, QoS>, nextId: u16, j: nat)
    requires (forall f :: f in filters ==> f in active) && j < |filters|
    ensures Resubscriptions(filters, active, nextId)[j]
         == Subscribe(IdAfterAll(nextId, j), [(filters[j], active[filters[j]])], [])
    decreases j
  {
    hide NextId;
    if j > 0 {
      ResubscriptionsAre(filters[1..], active, NextId(nextId), j - 1);
    }
  }

  /**
   The broker decodes a recovery into every message in flight with DUP set and everything else as it was, under its
   identifier and in the order of the iteration, and then into a SUBSCRIBE for every active subscription with its QoS.
   */
  lemma RecoveryIsDecoded(order: seq<u16>, inflight: map<u16, Pending>, filters: seq<seq<byte>>,
                          active: map<seq<byte>, QoS>, nextId: u16, v: Version, capacity: nat, chunks: seq<seq<byte>>)
    requires (forall id :: id in order ==> id in inflight) && (forall f :: f in filters ==> f in active)
    requires var all := Resends(order, inflight) + Resubscriptions(filters, active, nextId);
             AllFit(all, v, capacity) && AllCarried(all, v)
    requires Concat(chunks) == SentAll(Resends(order, inflight), v, capacity)
                               + SentAll(Resubscriptions(filters, active, nextId), v, capacity)
    ensures var r := DecodeAll(FramesOfReads([], chunks), v);
            && |r| == |order| + |filters|
            && (forall i :: 0 <= i < |order| ==>
                  var m := inflight[order[i]].0;
                  r[i] == Success(Some(Publish(true, m.qos, m.retain, m.topic, Some(order[i]), m.payload, []))))
            && (forall j :: 0 <= j < |filters| ==>
                  r[|order| + j]
                  == Success(Some(Subscribe(IdAfterAll(nextId, j), [(filters[j], active[filters[j]])], []))))
  {
    hide *;
    var a, b := Resends(order, inflight), Resubscriptions(filters, active, nextId);
    var r := DecodeAll(FramesOfReads([], chunks), v);
    RecoveryDelivers(a, b, v, capacity, chunks);
    RecoverySizes(order, inflight, filters, active, nextId);
    NothingReceived();
    if a + b != [] {
      ReceivedAt(a + b, 0);
    }
    forall i | 0 <= i < |order|
      ensures r[i] == Success(Some(Publish(true, inflight[order[i]].0.qos, inflight[order[i]].0.retain,
                                           inflight[order[i]].0.topic, Some(order[i]), inflight[order[i]].0.payload,
                                           [])))
    {
      ReceivedAt(a + b, i);
      ResendsAre(order, inflight, i);
    }
    forall j | 0 <= j < |filters|
      ensures r[|order| + j]
           == Success(Some(Subscribe(IdAfterAll(nextId, j), [(filters[j], active[filters[j]])], [])))
    {
      ReceivedAt(a + b, |order| + j);
      ResubscriptionsAre(filters, active, nextId, j);
      assert (a + b)[|a| + j] == b[j];
    }
  }

  lemma ResendsAre(order: seq<u16>, inflight: map<u16, Pending>, i: nat)
    requires (forall id :: id in order ==> id in inflight) && i < |order|
    ensures order[i] in inflight
    ensures var m := inflight[order[i]].0;
            Resends(order, inflight)[i] == Publish(true, m.qos, m.retain, m.topic, Some(order[i]), m.payload, [])
  {
    assert order[i] in order;
    hide PacketOf, Resend;
  }

  lemma RecoverySizes(order: seq<u16>, inflight: map<u16, Pending>, filters: seq<seq<byte>>,
                      active: map<seq<byte>, QoS>, nextId: u16)
    requires (forall id :: id in order ==> id in inflight) && (forall f :: f in filters ==> f in active)
    ensures |Resends(order, inflight)| == |order| && |Resubscriptions(filters, active, nextId)| == |filters|
  {
  }

  lemma NothingReceived()
    ensures Framing.Received([]) == []
  {
  }

  // ---- Connecting ----

  /** The reply to CONNECT is taken out of the first read, which may be longer than one frame. */
  function Handshaken(read: seq<byte>, v: Version): Result<(), ClientError> {
    match Decode(read, v)
    case Success(Some(ConnAck(_, code, _))) => if code == 0 then Success(()) else Failure(ConnectionRefused(code))
    case Failure(SliceOutOfRange) => Failure(Panic)
    case _ => Failure(InvalidResponse)
  }

  lemma HandshakeIgnoresTheRest(p: Packet, v: Version, rest: seq<byte>)
    requires p.ConnAck? && Carried(p, v) && Sendable(p, v)
    ensures Handshaken(Encoded(p, v) + rest, v)
         == if p.reasonCode == 0 then Success(()) else Failure(ConnectionRefused(p.reasonCode))
  {
    hide Decode, Encoded, Carried, Sendable;
    DecodeInvertsEncoded(p, v, rest);
  }

  /** Only a CONNACK with code 0 connects; its code says why it does not, and any other packet is no answer. */
  lemma HandshakeOutcome(p: Packet, v: Version, rest: seq<byte>)
    requires Carried(p, v) && Sendable(p, v)
    ensures Handshaken(Encoded(p, v) + rest, v)
         == if !p.ConnAck? then Failure(InvalidResponse)
            else if p.reasonCode == 0 then Success(()) else Failure(ConnectionRefused(p.reasonCode))
    ensures Handshaken([], v) == Failure(InvalidResponse)
  {
    hide DecodePacket, Encoded, Carried, Sendable;
    DecodeInvertsEncoded(p, v, rest);
  }

  /** What is no packet is no answer either, unless the decoder panics on it. */
  lemma UndecodableAnswer(read: seq<byte>, v: Version)
    requires Decode(read, v).Failure?
    ensures Handshaken(read, v) == Failure(if Decode(read, v).error == SliceOutOfRange then Panic else InvalidResponse)
  {
    hide Decode;
  }

  /** The frames a connection hands on: `first` is the read that answers CONNECT, and the receive loop starts empty. */
  function FramesOfConnection(first: seq<byte>, chunks: seq<seq<byte>>, v: Version): seq<seq<byte>> {
    if Handshaken(first, v).Success? then RunOfReads([], chunks).frames else []
  }

  /**
   What the broker sends behind its CONNACK and what comes in the same read is lost. Wherever that read ends, the
   connection hands on all packets if and only if it ends with the CONNACK and no later read that begins before the end
   of the packets is empty or ends strictly inside a length field; and it then goes on waiting if and only if none is.
   */
  lemma FirstReadIsCompleteIff(connack: Packet, ps: seq<Packet>, b: nat, chunks: seq<seq<byte>>, v: Version)
    requires connack.ConnAck? && connack.reasonCode == 0 && Carried(connack, v) && Sendable(connack, v)
    requires AllCarried(ps, v) && b <= |Concat(Encodings(ps, v))|
    requires Concat(chunks) == Concat(Encodings(ps, v))[b..]
    ensures var s := Concat(Encodings(ps, v));
            var frames := FramesOfConnection(Encoded(connack, v) + s[..b], chunks, v);
            && (frames == Encodings(ps, v) <==> b == 0 && SafeBefore(ps, v, 0, chunks, |s|))
            && (frames == Encodings(ps, v) && RunOfReads([], chunks).fate.Waiting?
                <==> b == 0 && CutsAreSafe(ps, v, chunks))
  {
    hide *;
    var s := Concat(Encodings(ps, v));
    HandshakeSucceeds(connack, v, s[..b]);
    FramesAreShort([], chunks);
    if b == 0 {
      assert s[0..] == s;
      AllFramesIff(ps, v, chunks);
      StreamDelivers(ps, v, chunks);
    }
  }

  lemma HandshakeSucceeds(connack: Packet, v: Version, rest: seq<byte>)
    requires connack.ConnAck? && connack.reasonCode == 0 && Carried(connack, v) && Sendable(connack, v)
    ensures forall chunks :: FramesOfConnection(Encoded(connack, v) + rest, chunks, v) == RunOfReads([], chunks).frames
  {
    HandshakeIgnoresTheRest(connack, v, rest);
    hide Handshaken, Encoded, RunOfReads;
  }

  // ---- The event loop ----

  /** Iterating over a hash map: every key once, in no particular order. */
  method KeysInSomeOrder<K(==), M>(m: map<K, M>) returns (order: seq<K>)
    ensures S.Lists(order, m)
  {
    var keys := m.Keys;
    order := [];
    while keys != {}
      invariant multiset(order) + multiset(keys) == multiset(m.Keys)
      decreases |keys|
    {
      var k :| k in keys;
      order := order + [k];
      keys := keys - {k};
    }
  }

  class EventLoop {
    const version: Version
    const rxBuf: array<byte>
    const txBuf: array<byte>
    const router: TopicRouter
    var rxCursor: nat
    var nextPacketId: u16
    var inflightPublishes: map<u16, Pending>
    var activeSubscriptions: map<seq<byte>, QoS>
    var inflightSubscribes: map<u16, Reply>
    var inflightUnsubscribes: map<u16, Reply>
    /** What has been written to the transport, which callers were told, and where messages were sent. */
    var wire: seq<byte>
    var told: seq<Reply>
    var dispatched: seq<Dispatched>

    /** Only QoS 1 and 2 messages are in flight, each under the identifier it carries. */
    ghost predicate Valid()
      reads this, router
    {
      && rxBuf != txBuf && router.Valid()
      && rxCursor <= rxBuf.Length
      && nextPacketId != 0
      && (forall id :: id in inflightPublishes ==>
            inflightPublishes[id].0.qos != AtMostOnce && inflightPublishes[id].0.packetId == Some(id))
    }

    function Book(): S.Client<Pending>
      reads this
    {
      S.Client(nextPacketId, inflightPublishes)
    }

    /** The received bytes not yet cut into frames. */
    function Unread(): seq<byte>
      requires rxCursor <= rxBuf.Length
      reads this, rxBuf
    {
      rxBuf[..rxCursor]
    }

    ghost function State(): Effects
      reads this, router
    {
      Effects(Book(), inflightSubscribes, inflightUnsubscribes, router.regs, wire, told, dispatched, None)
    }

    function LinkTo(closed: set<T.Sender>): Link {
      Link(version, txBuf.Length, closed)
    }

    constructor (version: Version, maxPacketSize: nat)
      ensures Valid() && fresh(rxBuf) && fresh(txBuf) && fresh(router)
      ensures this.version == version && rxBuf.Length == maxPacketSize && txBuf.Length == maxPacketSize
      ensures Unread() == [] && activeSubscriptions == map[]
      ensures State() == Effects(S.Client(1, map[]), map[], map[], [], [], [], [], None)
    {
      this.version := version;
      rxBuf := new byte[maxPacketSize];
      txBuf := new byte[maxPacketSize];
      router := new TopicRouter();
      rxCursor, nextPacketId := 0, 1;
      inflightPublishes, activeSubscriptions := map[], map[];
      inflightSubscribes, inflightUnsubscribes := map[], map[];
      wire, told, dispatched := [], [], [];
    }

    /** `get_next_packet_id`. */
    method GetNextPacketId() returns (id: u16)
      modifies this`nextPacketId
      ensures id == old(nextPacketId) && nextPacketId == NextId(id)
    {
      id := nextPacketId;
      nextPacketId := (nextPacketId + 1) % 0x1_0000;
      if nextPacketId == 0 {
        nextPacketId := 1;
      }
    }

    /** Encodes into an empty `tx_buf` and writes the packet out, unless the encoder refuses it. */
    method Transmit(p: Packet) returns (r: Result<(), ClientError>)
      requires Valid()
      modifies this`wire, txBuf
      ensures Valid() && r == Transmitted(p, version, txBuf.Length)
      ensures wire == old(wire) + Sent(p, version, txBuf.Length)
    {
      hide Encoded, Panics;
      var end := Append(p, version, txBuf, 0);
      assert txBuf[..0] + Encoded(p, version) == Encoded(p, version);
      FitsOrPanics(p, version, txBuf.Length);
      hide LengthsFit, Space;
      assert wire + [] == wire;
      match end
      case Success(len) =>
        wire := wire + txBuf[..len];
        r := Success(());
      case Failure(e) =>
        r := Failure(if e == SliceOutOfRange then Panic else ClientError.MalformedPacket);
    }

    /** The opening of both send functions: a QoS 1 or 2 message goes in flight under a new identifier. */
    method TakeInFlight(message: PublishMessage, ack: Option<Reply>) returns (packetId: Option<u16>)
      requires Valid()
      modifies this`nextPacketId, this`inflightPublishes
      ensures Valid() && Book() == Booked(old(Book()), message, ack)
      ensures packetId == TakenId(message, old(nextPacketId))
    {
      packetId := None;
      if message.qos != AtMostOnce {
        var pid := GetNextPacketId();
        packetId := Some(pid);
        inflightPublishes := inflightPublishes[pid := (message.(packetId := packetId), ack)];
      }
    }

    /** `send_publish_direct`. The message is in flight even when it cannot be encoded. */
    method SendPublishDirect(message: PublishMessage, ack: Option<Reply>) returns (r: Result<(), ClientError>)
      requires Valid()
      modifies this`nextPacketId, this`inflightPublishes, this`wire, this`told, txBuf
      ensures Valid() && Book() == Booked(old(Book()), message, ack)
      ensures told == old(told) + (if message.qos == AtMostOnce && ack.Some? then [ack.value] else [])
      ensures var id := if message.qos == AtMostOnce then None else Some(old(nextPacketId));
              var p := Publish(message.dup, message.qos, message.retain, message.topic, id, message.payload, []);
              && wire == old(wire) + Sent(p, version, txBuf.Length)
              && r == Transmitted(p, version, txBuf.Length)
      ensures if message.qos == AtMostOnce then inflightPublishes == old(inflightPublishes)
              else var id := old(nextPacketId);
                   inflightPublishes == old(inflightPublishes)
                     [id := (PublishMessage(message.topic, message.payload, message.qos, message.retain, message.dup,
                                            Some(id)), ack)]
    {
      hide Sent, Transmitted;
      var packetId := TakeInFlight(message, ack);
      if message.qos == AtMostOnce && ack.Some? {
        told := told + [ack.value];
      }
      assert old(told) + [] == old(told);
      r := Transmit(PacketOf(message, packetId));
    }

    /** One turn of the burst loop: `buffered` bytes of `tx_buf` hold `sent` messages not yet written. */
    method BurstTurn(message: PublishMessage, buffered: nat, sent: nat) returns (r: Result<(nat, nat), ClientError>)
      requires Valid() && buffered <= txBuf.Length
      modifies this`nextPacketId, this`inflightPublishes, this`wire, txBuf
      ensures Valid()
      ensures var b := Taken(Burst(old(Book()), old(wire + txBuf[..buffered]), buffered, sent, None), message, version,
                             txBuf.Length);
              && b.book == Book()
              && (r.Failure? ==>
                    b.failed == Some(r.error) && b.buffered <= |b.out| && wire == b.out[..|b.out| - b.buffered])
              && (r.Success? ==>
                    && r.value.0 <= txBuf.Length
                    && b == Burst(Book(), wire + txBuf[..r.value.0], r.value.0, r.value.1, None))
    {
      hide Encoded, PacketOf, Booked, TakenId, LengthsFit, Space, Panics;
      ghost var before := wire + txBuf[..buffered];
      var packetId := TakeInFlight(message, None);
      UnfoldPacket(message, packetId);
      var p := PacketOf(message, packetId);
      var end := Append(p, version, txBuf, buffered);
      if end.Success? {
        Associative(wire, txBuf[..buffered], Encoded(p, version));
        return Success((end.value, sent + 1));
      }
      if end.error == SliceOutOfRange {
        assert before[..|before| - buffered] == wire;
        return Failure(Panic);
      }
      if buffered == 0 {
        return Success((0, sent));
      }
      wire := wire + txBuf[..buffered];
      end := Append(p, version, txBuf, 0);
      assert txBuf[..0] + Encoded(p, version) == Encoded(p, version);
      if end.Failure? {
        assert wire[..|wire| - 0] == wire;
        return Failure(if end.error == SliceOutOfRange then Panic else ClientError.MalformedPacket);
      }
      return Success((end.value, sent + 1));
    }

    /** `send_publish_batch_direct`. */
    method SendPublishBatchDirect(messages: seq<PublishMessage>) returns (r: Result<nat, ClientError>)
      requires Valid()
      modifies this`nextPacketId, this`inflightPublishes, this`wire, txBuf
      ensures Valid()
      ensures var b := TakenAll(Fresh(old(Book()), old(wire)), messages, version, txBuf.Length);
              && Book() == b.book
              && r == (if b.failed.Some? then Failure(b.failed.value) else Success(b.sent))
              && wire == if b.failed.None? then b.out else Flushed(b)
    {
      hide TakenAll, Taken, Flushed, T.Agrees;
      var cursor: nat, sentCount: nat := 0, 0;
      ghost var all := TakenAll(Fresh(Book(), wire), messages, version, txBuf.Length);
      assert wire + txBuf[..0] == wire && messages[0..] == messages;
      for i := 0 to |messages|
        invariant Valid() && cursor <= txBuf.Length
        invariant TakenAll(Burst(Book(), wire + txBuf[..cursor], cursor, sentCount, None), messages[i..], version,
                           txBuf.Length) == all
      {
        ghost var b := Burst(Book(), wire + txBuf[..cursor], cursor, sentCount, None);
        BurstStep(b, messages[i..], version, txBuf.Length);
        FlushedIs(Taken(b, messages[i], version, txBuf.Length));
        assert messages[i..][1..] == messages[i + 1..];
        var turn := BurstTurn(messages[i], cursor, sentCount);
        if turn.Failure? {
          return Failure(turn.error);
        }
        cursor, sentCount := turn.value.0, turn.value.1;
      }
      assert messages[|messages|..] == [];
      NothingTaken(Burst(Book(), wire + txBuf[..cursor], cursor, sentCount, None), version, txBuf.Length);
      if cursor > 0 {
        wire := wire + txBuf[..cursor];
      }
      assert cursor == 0 ==> wire + txBuf[..cursor] == wire;
      return Success(sentCount);
    }

    /** Step 1 of `perform_session_data_recovery`; fails only by a panic. */
    method ResendInFlight() returns (r: Result<seq<u16>, ClientError>)
      requires Valid()
      modifies this`wire, txBuf
      ensures Valid()
      ensures r.Failure? <==> exists id :: id in inflightPublishes
                                           && Panics(Resend(id, inflightPublishes[id]), version, txBuf.Length)
      ensures r.Failure? ==> r.error == Panic
      ensures r.Success? ==>
                && S.Lists(r.value, inflightPublishes) && (forall id :: id in r.value ==> id in inflightPublishes)
                && wire == old(wire) + SentAll(Resends(r.value, inflightPublishes), version, txBuf.Length)
    {
      hide *;
      var order := KeysInSomeOrder(inflightPublishes);
      forall id ensures id in order <==> id in inflightPublishes {
        S.ListedIsKey(order, inflightPublishes, id);
      }
      ghost var all := wire + SentAll(Resends(order, inflightPublishes), version, txBuf.Length);
      assert order[0..] == order;
      for i := 0 to |order|
        invariant Valid()
        invariant wire + SentAll(Resends(order[i..], inflightPublishes), version, txBuf.Length) == all
        invariant forall k :: 0 <= k < i ==>
                    !Panics(Resend(order[k], inflightPublishes[order[k]]), version, txBuf.Length)
      {
        ResendStep(order, i, inflightPublishes, wire, version, txBuf.Length);
        var p := Resend(order[i], inflightPublishes[order[i]]);
        TransmittedPanics(p, version, txBuf.Length);
        assert order[i] in order;
        var sent := Transmit(p);
        if sent == Failure(Panic) {
          assert order[i] in inflightPublishes
              && Panics(Resend(order[i], inflightPublishes[order[i]]), version, txBuf.Length);
          return Failure(Panic);
        }
      }
      forall id | id in inflightPublishes ensures !Panics(Resend(id, inflightPublishes[id]), version, txBuf.Length) {
        var k :| 0 <= k < |order| && order[k] == id;
      }
      assert order[|order|..] == [] && wire + [] == wire;
      NothingResent(inflightPublishes, version, txBuf.Length);
      return Success(order);
    }

    method SubscribeAgain(filter: seq<byte>, qos: QoS)
      requires Valid()
      modifies this`nextPacketId, this`wire, txBuf
      ensures Valid() && nextPacketId == NextId(old(nextPacketId))
      ensures wire == old(wire) + Sent(SubscribeFor(old(nextPacketId), filter, qos), version, txBuf.Length)
    {
      hide Sent, Transmitted;
      var pid := GetNextPacketId();
      var _ := Transmit(SubscribeFor(pid, filter, qos));
    }

    /** Step 2 of `perform_session_data_recovery`; the new identifiers are not tracked. */
    method Resubscribe() returns (filters: seq<seq<byte>>)
      requires Valid()
      modifies this`nextPacketId, this`wire, txBuf
      ensures Valid() && S.Lists(filters, activeSubscriptions) && forall f :: f in filters ==> f in activeSubscriptions
      ensures wire == old(wire) + SentAll(Resubscriptions(filters, activeSubscriptions, old(nextPacketId)), version,
                                          txBuf.Length)
      ensures nextPacketId == IdAfterAll(old(nextPacketId), |filters|)
    {
      hide *;
      filters := KeysInSomeOrder(activeSubscriptions);
      forall f | f in filters ensures f in activeSubscriptions {
        S.ListedIsKey(filters, activeSubscriptions, f);
      }
      ghost var all :=
        wire + SentAll(Resubscriptions(filters, activeSubscriptions, nextPacketId), version, txBuf.Length);
      ghost var last := IdAfterAll(nextPacketId, |filters|);
      assert filters[0..] == filters;
      for i := 0 to |filters|
        invariant Valid()
        invariant wire + SentAll(Resubscriptions(filters[i..], activeSubscriptions, nextPacketId), version,
                                 txBuf.Length)
               == all
        invariant IdAfterAll(nextPacketId, |filters| - i) == last
      {
        ResubscribeStep(filters, i, activeSubscriptions, nextPacketId, wire, version, txBuf.Length);
        IdAfterOneMore(nextPacketId, |filters| - i);
        SubscribeAgain(filters[i], activeSubscriptions[filters[i]]);
      }
      ResubscribeEnd(filters, activeSubscriptions, nextPacketId, wire, version, txBuf.Length);
    }

    /** `perform_session_data_recovery`, the queue of offline messages being empty; fails only by a panic. */
    method PerformSessionDataRecovery(resendUnacked: bool, autoResubscribe: bool)
      returns (r: Result<(seq<u16>, seq<seq<byte>>), ClientError>)
      requires Valid()
      modifies this`nextPacketId, this`wire, txBuf
      ensures Valid()
      ensures r.Failure? <==> resendUnacked && exists id :: id in inflightPublishes
                                                  && Panics(Resend(id, inflightPublishes[id]), version, txBuf.Length)
      ensures r.Success? ==>
                var (order, filters) := r.value;
                && (forall id :: id in order ==> id in inflightPublishes)
                && (forall f :: f in filters ==> f in activeSubscriptions)
                && (if resendUnacked then S.Lists(order, inflightPublishes) else order == [])
                && (if autoResubscribe then S.Lists(filters, activeSubscriptions) else filters == [])
                && wire == old(wire) + SentAll(Resends(order, inflightPublishes), version, txBuf.Length)
                          + SentAll(Resubscriptions(filters, activeSubscriptions, old(nextPacketId)), version,
                                    txBuf.Length)
                && nextPacketId == IdAfterAll(old(nextPacketId), |filters|)
    {
      hide Sent, S.Lists, NextId, Panics, Resend;
      var order: seq<u16>, filters: seq<seq<byte>> := [], [];
      if resendUnacked {
        var resent := ResendInFlight();
        if resent.Failure? {
          return Failure(resent.error);
        }
        order := resent.value;
      }
      assert order == [] ==> Resends(order, inflightPublishes) == [] && old(wire) + [] == old(wire);
      if autoResubscribe {
        filters := Resubscribe();
      }
      assert filters == [] ==> wire + [] == wire;
      return Success((order, filters));
    }

    /** The Subscribe arm of `handle_client_request`; an invalid filter is sent all the same. */
    method HandleSubscribe(filter: seq<byte>, qos: QoS, reply: Reply, stream: Option<T.Sender>)
      returns (r: Result<(), ClientError>)
      requires Valid()
      modifies this`nextPacketId, this`activeSubscriptions, this`inflightSubscribes, this`wire, txBuf, router
      ensures Valid() && nextPacketId == NextId(old(nextPacketId))
      ensures router.regs == if stream.Some? && Topics.ValidFilter(Chars(filter))
                             then old(router.regs) + [T.Reg(Levels(filter), stream.value)] else old(router.regs)
      ensures activeSubscriptions == old(activeSubscriptions)[filter := qos]
      ensures var p := Subscribe(old(nextPacketId), [(filter, qos)], []);
              && wire == old(wire) + Sent(p, version, txBuf.Length)
              && r == Transmitted(p, version, txBuf.Length)
              && inflightSubscribes == if r.Success? then old(inflightSubscribes)[old(nextPacketId) := reply]
                                       else old(inflightSubscribes)
    {
      hide Sent, Transmitted, Topics.ValidFilter, T.Agrees;
      var pid := GetNextPacketId();
      if stream.Some? {
        var _ := router.Insert(Chars(filter), stream.value);
      }
      activeSubscriptions := activeSubscriptions[filter := qos];
      r := Transmit(SubscribeFor(pid, filter, qos));
      if r.Success? {
        inflightSubscribes := inflightSubscribes[pid := reply];
      }
    }

    /** The Unsubscribe arm of `handle_client_request`. */
    method HandleUnsubscribe(filter: seq<byte>, reply: Reply) returns (r: Result<(), ClientError>)
      requires Valid()
      modifies this`nextPacketId, this`activeSubscriptions, this`inflightUnsubscribes, this`wire, txBuf, router
      ensures Valid() && nextPacketId == NextId(old(nextPacketId))
      ensures router.regs == if Topics.ValidFilter(Chars(filter)) then T.Without(old(router.regs), Levels(filter))
                             else old(router.regs)
      ensures activeSubscriptions == old(activeSubscriptions) - {filter}
      ensures var p := Unsubscribe(old(nextPacketId), [filter], []);
              && wire == old(wire) + Sent(p, version, txBuf.Length)
              && r == Transmitted(p, version, txBuf.Length)
              && inflightUnsubscribes == if r.Success? then old(inflightUnsubscribes)[old(nextPacketId) := reply]
                                         else old(inflightUnsubscribes)
    {
      hide Sent, Transmitted, Topics.ValidFilter, T.Agrees, T.Without;
      var pid := GetNextPacketId();
      var _ := router.Remove(Chars(filter));
      activeSubscriptions := activeSubscriptions - {filter};
      r := Transmit(Unsubscribe(pid, [filter], []));
      if r.Success? {
        inflightUnsubscribes := inflightUnsubscribes[pid := reply];
      }
    }

    /**
     `perform_connect_handshake`: CONNECT goes out, and `read` is what the transport returns next. `drive_connection`,
     which follows, starts with an empty buffer.
     */
    method PerformConnectHandshake(connect: Packet, read: seq<byte>) returns (r: Result<(), ClientError>)
      requires Valid() && connect.Connect? && |read| <= rxBuf.Length
      modifies this`wire, this`rxCursor, txBuf, rxBuf
      ensures Valid() && wire == old(wire) + Sent(connect, version, txBuf.Length)
      ensures r == if Transmitted(connect, version, txBuf.Length).Success? then Handshaken(read, version)
                   else Transmitted(connect, version, txBuf.Length)
      ensures r.Success? ==> Unread() == []
    {
      hide Sent, Transmitted, Decode;
      var sent := Transmit(connect);
      if sent.Failure? {
        return sent;
      }
      if read == [] {
        DecodeNothing(version);
        return Failure(InvalidResponse);
      }
      forall i | 0 <= i < |read| {
        rxBuf[i] := read[i];
      }
      assert rxBuf[..|read|] == read;
      var decoded := ReadPacket(rxBuf[..|read|], version);
      rxCursor := 0;
      match decoded
      case Success(Some(ConnAck(_, code, _))) =>
        return if code == 0 then Success(()) else Failure(ConnectionRefused(code));
      case Failure(SliceOutOfRange) =>
        return Failure(Panic);
      case _ =>
        return Failure(InvalidResponse);
    }

    /**
     The frames of a read, decoded, and how many bytes they took. The loop skips errors of the iterator (`flatten`); as
     the iterator repeats its error for ever, so does the loop, which is marked by a result here.
     */
    method TakeFrames(data: seq<byte>) returns (r: Result<(seq<Action>, nat), ClientError>)
      ensures match Actions(Frames(data), version, [])
              case Failure(e) => r == Failure(e)
              case Success(actions) =>
                if Stuck(data) then r == Failure(DrainNeverEnds)
                else r.Success? && r.value.0 == actions && r.value.1 <= |data| && data[r.value.1..] == Tail(data)
    {
      hide Decode, ActionOf, FrontOf;
      var actions: seq<Action>, consumed: nat := [], 0;
      var iter := new FrameIter(data);
      assert data[0..] == data;
      FramesNeverPanic(data, version);
      while true
        invariant iter.Valid() && iter.buffer == data && iter.offset == consumed
        invariant Actions(Frames(data[consumed..]), version, actions) == Actions(Frames(data), version, [])
        invariant Tail(data[consumed..]) == Tail(data)
        decreases |data| - consumed
      {
        NextItem(data, consumed);
        var item := iter.Next();
        match item
        case None => break;
        case Some(Failure(_)) =>
          return Failure(DrainNeverEnds);
        case Some(Success(frame)) =>
          consumed := consumed + |frame|;
          var decoded := ReadPacket(frame, version);
          if decoded.Failure? {
            return Failure(InvalidResponse);
          }
          if decoded.value.Some? {
            actions := actions + ActionOf(decoded.value.value);
          }
      }
      return Success((actions, consumed));
    }

    /** One turn of the action loop; `closed` are the subscribers whose receiver is gone. */
    method Perform(action: Action, closed: set<T.Sender>) returns (r: Result<(), ClientError>)
      requires Valid()
      modifies this`inflightPublishes, this`inflightSubscribes, this`inflightUnsubscribes, this`wire, this`told,
               this`dispatched, txBuf, router
      ensures Valid()
      ensures State().(ended := if r.Failure? then Some(r.error) else None)
           == Performed(old(State()), action, LinkTo(closed))
    {
      hide Sent, Transmitted, T.Agrees, T.Targets, T.Cleared;
      assert old(told) + [] == old(told) && old(wire) + [] == old(wire);
      r := Success(());
      match action
      case OnPublish(message) =>
        if message.qos == AtLeastOnce && message.packetId.Some? {
          var _ := Transmit(PubAck(Bare(message.packetId.value)));
        }
        var before := |router.sent|;
        router.Dispatch(Chars(message.topic), closed);
        dispatched := dispatched + [(message, multiset(router.sent[before..]))];
      case OnPubAck(id) =>
        if id in inflightPublishes && inflightPublishes[id].1.Some? {
          told := told + [inflightPublishes[id].1.value];
        }
        inflightPublishes := inflightPublishes - {id};
      case OnSubAck(id) =>
        if id in inflightSubscribes {
          told := told + [inflightSubscribes[id]];
        }
        inflightSubscribes := inflightSubscribes - {id};
      case OnUnsubAck(id) =>
        if id in inflightUnsubscribes {
          told := told + [inflightUnsubscribes[id]];
        }
        inflightUnsubscribes := inflightUnsubscribes - {id};
      case OnPingResp =>
      case OnDisconnect =>
        r := Failure(NotConnected);
    }

    method PerformEach(actions: seq<Action>, closed: set<T.Sender>) returns (r: Result<(), ClientError>)
      requires Valid()
      modifies this`inflightPublishes, this`inflightSubscribes, this`inflightUnsubscribes, this`wire, this`told,
               this`dispatched, txBuf, router
      ensures Valid()
      ensures State().(ended := if r.Failure? then Some(r.error) else None)
           == PerformedAll(old(State()), actions, LinkTo(closed))
    {
      hide Performed, T.Agrees;
      assert actions[0..] == actions;
      for i := 0 to |actions|
        invariant Valid()
        invariant PerformedAll(State(), actions[i..], LinkTo(closed))
               == PerformedAll(old(State()), actions, LinkTo(closed))
      {
        assert actions[i..][1..] == actions[i + 1..];
        var _ :- Perform(actions[i], closed);
      }
      return Success(());
    }

    /** The read arm of `drive_connection`; `chunk` is what the transport put behind the bytes not yet consumed. */
    method OnRead(chunk: seq<byte>, closed: set<T.Sender>) returns (r: Result<(), ClientError>)
      requires Valid() && |chunk| <= rxBuf.Length - rxCursor
      modifies this`rxCursor, this`inflightPublishes, this`inflightSubscribes, this`inflightUnsubscribes, this`wire,
               this`told, this`dispatched, rxBuf, txBuf, router
      ensures Valid()
      ensures State().(ended := if r.Failure? then Some(r.error) else None)
           == EffectsOfReads(old(State()), old(Unread()), [chunk], LinkTo(closed))
      ensures r.Success? ==> Unread() == Tail(old(Unread()) + chunk)
    {
      hide Actions, Frames, Tail, PerformedAll, Stuck, T.Agrees;
      OneRead(State(), Unread(), chunk, LinkTo(closed));
      hide EffectsOfReads;
      if chunk == [] {
        return Failure(UnexpectedEof);
      }
      forall i | 0 <= i < |chunk| {
        rxBuf[rxCursor + i] := chunk[i];
      }
      rxCursor := rxCursor + |chunk|;
      assert rxBuf[..rxCursor] == old(Unread()) + chunk;
      ghost var data := rxBuf[..rxCursor];
      var taken := TakeFrames(rxBuf[..rxCursor]);
      if taken.Failure? {
        return Failure(taken.error);
      }
      var (actions, consumed) := taken.value;
      if consumed > 0 {
        CopyWithin(rxBuf, consumed, rxCursor, 0);
        rxCursor := rxCursor - consumed;
      }
      assert Unread() == data[consumed..];
      r := PerformEach(actions, closed);
    }

    /**
     The loop of `drive_connection` as far as reads go: `chunks` are what the transport returns one after another, each
     no longer than the room left in the buffer.
     */
    method Drive(chunks: seq<seq<byte>>, closed: set<T.Sender>) returns (r: Result<(), ClientError>)
      requires Valid() && FitTheRoom(Unread(), chunks, rxBuf.Length)
      modifies this`rxCursor, this`inflightPublishes, this`inflightSubscribes, this`inflightUnsubscribes, this`wire,
               this`told, this`dispatched, rxBuf, txBuf, router
      ensures Valid()
      ensures State().(ended := if r.Failure? then Some(r.error) else None)
           == EffectsOfReads(old(State()), old(Unread()), chunks, LinkTo(closed))
    {
      hide Frames, Tail, Stuck, T.Agrees, ReadEffects;
      ghost var all := EffectsOfReads(State(), Unread(), chunks, LinkTo(closed));
      assert chunks[0..] == chunks;
      for i := 0 to |chunks|
        invariant Valid() && FitTheRoom(Unread(), chunks[i..], rxBuf.Length)
        invariant EffectsOfReads(State(), Unread(), chunks[i..], LinkTo(closed)) == all
      {
        MoreReads(State(), Unread(), chunks[i..], LinkTo(closed));
        assert chunks[i..][1..] == chunks[i + 1..];
        hide EffectsOfReads;
        var _ :- OnRead(chunks[i], closed);
      }
      return Success(());
    }
  }

  /** What a transport can do: fill no more than the room behind the bytes still buffered. */
  predicate FitTheRoom(tail: seq<byte>, chunks: seq<seq<byte>>, capacity: nat)
    decreases |chunks|
  {
    chunks == []
    || (|tail| + |chunks[0]| <= capacity && FitTheRoom(Tail(tail + chunks[0]), chunks[1..], capacity))
  }

  lemma OneRead(e: Effects, tail: seq<byte>, chunk: seq<byte>, l: Link)
    requires e.ended.None?
    ensures EffectsOfReads(e, tail, [chunk], l)
         == if chunk == [] then e.(ended := Some(UnexpectedEof)) else ReadEffects(e, tail + chunk, l)
  {
    hide ReadEffects, Tail;
    assert [chunk][1..] == [];
  }

  /** The first read, and then the others unless it ended the connection. */
  lemma MoreReads(e: Effects, tail: seq<byte>, chunks: seq<seq<byte>>, l: Link)
    requires e.ended.None? && chunks != []
    ensures var f := EffectsOfReads(e, tail, [chunks[0]], l);
            EffectsOfReads(e, tail, chunks, l)
            == if f.ended.Some? then f else EffectsOfReads(f, Tail(tail + chunks[0]), chunks[1..], l)
  {
    hide ReadEffects, Tail;
    OneRead(e, tail, chunks[0], l);
  }

  /** What was written when a burst failed: everything but the bytes still buffered. */
  function Flushed(b: Burst): seq<byte> {
    if b.buffered <= |b.out| then b.out[..|b.out| - b.buffered] else []
  }

  lemma FlushedIs(b: Burst)
    ensures b.buffered <= |b.out| ==> Flushed(b) == b.out[..|b.out| - b.buffered]
  {
  }

  lemma NothingTaken(b: Burst, v: Version, capacity: nat)
    requires b.buffered <= capacity
    ensures TakenAll(b, [], v, capacity) == b
  {
  }

  /** The result of encoding into an empty buffer and writing. */
  function Transmitted(p: Packet, v: Version, capacity: nat): Result<(), ClientError> {
    if Fits(p, v, capacity) then Success(())
    else Failure(if Panics(p, v, capacity) then Panic else ClientError.MalformedPacket)
  }

  /** Transmission fails exactly when the packet does not fit, and then as malformed. */
  lemma TransmittedIff(p: Packet, v: Version, capacity: nat)
    requires Sendable(p, v) && !p.Disconnect? && !p.PingReq?
    ensures Transmitted(p, v, capacity)
         == if LengthsFit(p) && (if p.PingResp? then 2 else 5 + |Body(p, v)|) <= capacity then Success(())
            else Failure(ClientError.MalformedPacket)
  {
    FitsIff(p, v, capacity);
    SendableNeverPanics(p, v, capacity);
    hide Body, LengthsFit, Fits, Panics, Sendable;
  }

  lemma TransmittedPanics(p: Packet, v: Version, capacity: nat)
    ensures Transmitted(p, v, capacity) == Failure(Panic) <==> Panics(p, v, capacity)
  {
    FitsOrPanics(p, v, capacity);
    hide Fits, Panics;
  }

  lemma UnfoldPacket(m: PublishMessage, id: Option<u16>)
    ensures PacketOf(m, id).Publish?
  {
  }

  lemma BurstStep(b: Burst, ms: seq<PublishMessage>, v: Version, capacity: nat)
    requires ms != [] && b.failed.None? && b.buffered <= capacity
    ensures TakenAll(b, ms, v, capacity) == TakenAll(Taken(b, ms[0], v, capacity), ms[1..], v, capacity)
    ensures var b1 := Taken(b, ms[0], v, capacity); b1.failed.Some? ==> TakenAll(b, ms, v, capacity) == b1
  {
    hide Taken;
  }
}
