/** Write paths and polling of the embedded client (crates/mqtt-embedded/src/client.rs). */
module EmbeddedClient {
  import opened Wrappers
  import opened Bytes
  import opened PacketErrors
  import opened Packets
  import opened Encoder
  import opened Framing
  import opened PacketIds
  import opened Polling
  import opened Publishing
  import opened StreamWriter
  import D = Decoder
  import F = Fields
  import I = Inflight
  import R = RoundTrip
  import Properties
  import VarInt

  // ---- Tracking ----

  /** Entering one message into the in-flight table. */
  function TrackedOne(t: I.Table, room: nat, m: PublishMessage, nextId: u16): (I.Table, bool) {
    I.Applied(t, room, I.TrackOutbound(nextId, m.qos))
  }

  /** Entering the messages of a batch one by one, as long as there is room. */
  function TrackedAll(t: I.Table, room: nat, ms: seq<PublishMessage>, nextId: u16): Option<I.Table>
    decreases |ms|
  {
    if ms == [] then Some(t)
    else
      var (u, ok) := TrackedOne(t, room, ms[0], nextId);
      if ok then TrackedAll(u, room, ms[1..], IdAfter(ms[0], nextId)) else None
  }

  function NewId(m: PublishMessage, nextId: u16): set<u16> {
    if m.qos == AtMostOnce then {} else {nextId}
  }

  function NewIds(ms: seq<PublishMessage>, nextId: u16): set<u16>
    decreases |ms|
  {
    if ms == [] then {}
    else NewId(ms[0], nextId) + NewIds(ms[1..], IdAfter(ms[0], nextId))
  }

  function IdAfterAll(ms: seq<PublishMessage>, nextId: u16): u16
    decreases |ms|
  {
    if ms == [] then nextId else IdAfterAll(ms[1..], IdAfter(ms[0], nextId))
  }

  lemma SubsetIsSmaller<T>(a: set<T>, b: set<T>)
    requires a <= b
    ensures |a| <= |b|
    decreases a
  {
    if x :| x in a {
      SubsetIsSmaller(a - {x}, b - {x});
    }
  }

  /** There is room for a batch exactly when the identifiers in the table and the new ones together fit its bound. */
  lemma {:induction false} RoomIff(t: I.Table, room: nat, ms: seq<PublishMessage>, nextId: u16)
    requires |t| <= room
    ensures TrackedAll(t, room, ms, nextId).Some? <==> |t.Keys + NewIds(ms, nextId)| <= room
    decreases |ms|
  {
    if ms == [] {
      assert t.Keys + {} == t.Keys;
      assert |t| == |t.Keys|;
    } else {
      TrackingGrows(t, room, ms[0], nextId);
      var (u, ok) := TrackedOne(t, room, ms[0], nextId);
      var mine, later := NewId(ms[0], nextId), NewIds(ms[1..], IdAfter(ms[0], nextId));
      assert NewIds(ms, nextId) == mine + later;
      assert TrackedAll(t, room, ms, nextId)
          == if ok then TrackedAll(u, room, ms[1..], IdAfter(ms[0], nextId)) else None;
      hide *;
      UnionIsAssociative(t.Keys, mine, later);
      if ok {
        RoomIff(u, room, ms[1..], IdAfter(ms[0], nextId));
      }
    }
  }

  lemma UnionIsAssociative(a: set<u16>, b: set<u16>, c: set<u16>)
    ensures a + (b + c) == a + b + c && |a + b| <= |a + (b + c)|
  {
    SubsetIsSmaller(a + b, a + (b + c));
  }

  lemma TrackingGrows(t: I.Table, room: nat, m: PublishMessage, nextId: u16)
    requires |t| <= room
    ensures var (u, ok) := TrackedOne(t, room, m, nextId);
            if ok then u.Keys == t.Keys + NewId(m, nextId) && |u| <= room else |t.Keys + NewId(m, nextId)| > room
  {
    var id := nextId;
    if m.qos == AtMostOnce {
      assert t.Keys + {} == t.Keys;
    } else {
      var status := I.OutboundStatus(m.qos);
      hide I.OutboundStatus;
      assert t[id := status].Keys == t.Keys + {id};
      I.UpdatedSize(t, id, status);
      assert |t| == |t.Keys|;
    }
  }

  // ---- Streamed publishes ----

  /** The variable header of a streamed publish. */
  function StreamHead(topic: seq<byte>, id: Option<u16>, v: Version): seq<byte> {
    F.Prefixed(topic) + (if id.Some? then BigEndian16(id.value) else []) + (if v == V5 then [0] else [])
  }

  /** The fixed header announcing `total` bytes of payload. */
  function StreamStart(qos: QoS, topic: seq<byte>, id: Option<u16>, total: nat, v: Version): seq<byte> {
    [0x30 + 2 * QoSBits(qos)] + VarInt.Encoding(|StreamHead(topic, id, v)| + total)
  }

  function Streamed(qos: QoS, topic: seq<byte>, id: Option<u16>, payload: seq<byte>): Packet {
    Publish(false, qos, false, topic, id, payload, [])
  }

  /** With the whole payload, within the protocol's limit, a streamed publish is byte for byte the one-shot encoding. */
  lemma StreamIsOneShot(qos: QoS, topic: seq<byte>, id: Option<u16>, payload: seq<byte>, v: Version)
    requires id.Some? <==> qos != AtMostOnce
    requires |StreamHead(topic, id, v)| + |payload| <= VarInt.MAX_VARINT
    ensures StreamStart(qos, topic, id, |payload|, v) + StreamHead(topic, id, v) + payload
         == Encoded(Streamed(qos, topic, id, payload), v)
  {
    var p, head := Streamed(qos, topic, id, payload), StreamHead(topic, id, v);
    StreamedBody(qos, topic, id, payload, v);
    hide *;
    var first, length := 0x30 + 2 * QoSBits(qos), VarInt.Encoding(|head + payload|);
    FrameIs(first, head + payload);
    Associative([first] + length, head, payload);
    StreamedFrame(qos, topic, id, payload, v);
  }

  lemma StreamedFrame(qos: QoS, topic: seq<byte>, id: Option<u16>, payload: seq<byte>, v: Version)
    ensures var p := Streamed(qos, topic, id, payload);
            Encoded(p, v) == Frame(0x30 + 2 * QoSBits(qos), Body(p, v))
    ensures StreamStart(qos, topic, id, |payload|, v)
         == [0x30 + 2 * QoSBits(qos)] + VarInt.Encoding(|StreamHead(topic, id, v) + payload|)
  {
    hide Body, StreamHead, Frame;
  }

  lemma StreamedBody(qos: QoS, topic: seq<byte>, id: Option<u16>, payload: seq<byte>, v: Version)
    requires id.Some? <==> qos != AtMostOnce
    ensures Body(Streamed(qos, topic, id, payload), v) == StreamHead(topic, id, v) + payload
  {
    assert PropertyField([], v) == if v == V5 then [0] else [] by { EmptyBlock(); }
    hide F.Prefixed, BigEndian16, PropertyField;
  }

  lemma EmptyBlock()
    ensures Properties.Block([]) == [0]
  {
    assert VarInt.Encoding(0) == [0];
  }

  /**
   Whatever the pieces of the payload, the broker has a whole frame exactly when `finish` succeeds, and then it decodes
   to the publish with the pieces put together.
   */
  lemma StreamCompletesIff(qos: QoS, topic: seq<byte>, id: Option<u16>, total: nat, v: Version, pieces: seq<seq<byte>>)
    requires (id.Some? <==> qos != AtMostOnce) && |topic| <= 0xFFFF
    requires |StreamHead(topic, id, v)| + total <= VarInt.MAX_VARINT
    ensures var payload := AllTaken(pieces, total);
            var bytes := StreamStart(qos, topic, id, total, v) + StreamHead(topic, id, v) + payload;
            && (FrontOf(bytes) == Whole(|bytes|) <==> |payload| == total)
            && (|payload| < total ==> FrontOf(bytes) == Partial)
            && (|payload| == total ==> bytes == Encoded(Streamed(qos, topic, id, payload), v))
            && (|payload| == total && ValidUtf8(topic) ==>
                  D.Decode(bytes, v) == Success(Some(Streamed(qos, topic, id, payload))))
  {
    var payload := AllTaken(pieces, total);
    var head := StreamHead(topic, id, v);
    hide *;
    TakenWithin(pieces, total);
    StreamFront(qos, topic, id, total, v, payload);
    if |payload| == total {
      StreamIsOneShot(qos, topic, id, payload, v);
      StreamedIsSendable(qos, topic, id, payload, v);
      if ValidUtf8(topic) {
        var p := Streamed(qos, topic, id, payload);
        R.DecodeInvertsEncoded(p, v, []);
        assert Encoded(p, v) + [] == Encoded(p, v);
      }
    }
  }

  lemma TakenWithin(pieces: seq<seq<byte>>, total: nat)
    ensures |AllTaken(pieces, total)| <= total
  {
  }

  lemma StreamFront(qos: QoS, topic: seq<byte>, id: Option<u16>, total: nat, v: Version, payload: seq<byte>)
    requires |StreamHead(topic, id, v)| + total <= VarInt.MAX_VARINT && |payload| <= total
    ensures var bytes := StreamStart(qos, topic, id, total, v) + StreamHead(topic, id, v) + payload;
            FrontOf(bytes) == if |payload| < total then Partial else Whole(|bytes|)
  {
    var head := StreamHead(topic, id, v);
    hide StreamHead, FrontOf, VarInt.Encoding;
    var first: byte, n := 0x30 + 2 * QoSBits(qos), |head| + total;
    FrontOfStart(first, n, head + payload);
    Associative([first] + VarInt.Encoding(n), head, payload);
  }

  lemma StreamedIsSendable(qos: QoS, topic: seq<byte>, id: Option<u16>, payload: seq<byte>, v: Version)
    requires id.Some? <==> qos != AtMostOnce
    requires |StreamHead(topic, id, v)| + |payload| <= VarInt.MAX_VARINT
    ensures Sendable(Streamed(qos, topic, id, payload), v)
    ensures ValidUtf8(topic) && |topic| <= 0xFFFF ==> Carried(Streamed(qos, topic, id, payload), v)
  {
    EmptyBlock();
    hide ValidUtf8;
  }

  /** A fixed header announcing `n` bytes is a whole frame once `n` bytes follow. */
  lemma FrontOfStart(first: byte, n: nat, rest: seq<byte>)
    requires n <= VarInt.MAX_VARINT
    ensures FrontOf([first] + VarInt.Encoding(n) + rest)
         == if |rest| < n then Partial else Whole(1 + |VarInt.Encoding(n)| + n)
  {
    var s := [first] + VarInt.Encoding(n) + rest;
    assert s[1..] == VarInt.Encoding(n) + rest;
    VarInt.ReadInvertsEncoding(n, rest);
  }

  // ---- Batches ----

  /** Table, identifier counter, bytes sent, bytes encoded but not yet sent, messages encoded, and what went wrong. */
  datatype Batch = Batch(table: I.Table, nextId: u16, wire: seq<byte>, pending: seq<byte>, sent: nat,
                         failed: Option<MqttError>)

  /** A message is tracked, then encoded behind the pending bytes, which are sent first when they are in the way. */
  function Packed(b: Batch, m: PublishMessage, room: nat, v: Version, capacity: nat): (r: Batch)
    requires |b.pending| <= capacity
    ensures |r.pending| <= capacity
  {
    var p, (t, ok) := PacketOf(m, TakenId(m, b.nextId)), TrackedOne(b.table, room, m, b.nextId);
    var c := b.(table := t, nextId := IdAfter(m, b.nextId));
    if !ok then c.(failed := Some(InflightQueueFull))
    else
      match Tried(p, v, capacity - |b.pending|)
      case Success(_) => c.(pending := b.pending + Encoded(p, v), sent := b.sent + 1)
      case Failure(e) =>
        if e != PacketError.BufferTooSmall || b.pending == [] then c.(failed := Some(FromPacketError(e)))
        else
          match Tried(p, v, capacity)
          case Success(_) => c.(wire := b.wire + b.pending, pending := Encoded(p, v), sent := b.sent + 1)
          case Failure(e') => c.(wire := b.wire + b.pending, pending := [], failed := Some(FromPacketError(e')))
  }

  function PackedAll(b: Batch, ms: seq<PublishMessage>, room: nat, v: Version, capacity: nat): Batch
    requires |b.pending| <= capacity
    decreases |ms|
  {
    if ms == [] || b.failed.Some? then b else PackedAll(Packed(b, ms[0], room, v, capacity), ms[1..], room, v, capacity)
  }

  function NewBatch(t: I.Table, nextId: u16, wire: seq<byte>): Batch {
    Batch(t, nextId, wire, [], 0, None)
  }

  /** How a panic of the encoder shows. */
  const PANIC: Option<MqttError> := Some(Protocol(SliceOutOfRange))

  /** One message of a batch: taken exactly when there is room for it in the table and it fits the buffer alone. */
  lemma PackedStep(b: Batch, m: PublishMessage, room: nat, v: Version, capacity: nat)
    requires |b.pending| <= capacity && b.failed.None?
    ensures var p, (t, ok) := PacketOf(m, TakenId(m, b.nextId)), TrackedOne(b.table, room, m, b.nextId);
            var r := Packed(b, m, room, v, capacity);
            && r.table == t && r.nextId == IdAfter(m, b.nextId)
            && (r.wire == b.wire || r.wire == b.wire + b.pending)
            && (r.failed != PANIC ==> (r.failed.None? <==> ok && Fits(p, v, capacity)))
            && (r.failed.None? ==> ok && Fits(p, v, capacity) && r.sent == b.sent + 1
                                   && r.wire + r.pending == b.wire + b.pending + Encoded(p, v))
            && (Sendable(p, v) ==> r.failed != PANIC)
  {
    hide *;
    var p := PacketOf(m, TakenId(m, b.nextId));
    IsPublish(m, TakenId(m, b.nextId));
    TriedSoFar(p, v, capacity - |b.pending|, capacity);
    Associative(b.wire, b.pending, Encoded(p, v));
    UnfoldPacked(b, m, room, v, capacity);
    OnlyPanicsShow();
  }

  /**
   Why a message of a batch is refused: no room for it in the table, a topic too long for its prefix, or a packet too
   large for an empty buffer.
   */
  lemma RefusedBecause(b: Batch, m: PublishMessage, room: nat, v: Version, capacity: nat)
    requires |b.pending| <= capacity && b.failed.None? && Sendable(PacketOf(m, TakenId(m, b.nextId)), v)
    ensures Packed(b, m, room, v, capacity).failed
         == if m.qos != AtMostOnce && b.nextId !in b.table && |b.table| >= room then Some(InflightQueueFull)
            else if |m.topic| > 0xFFFF && capacity >= 5 then Some(Protocol(PayloadTooLarge))
            else if |m.topic| > 0xFFFF || 5 + |Body(PacketOf(m, TakenId(m, b.nextId)), v)| > capacity then
              Some(MqttError.BufferTooSmall)
            else None
  {
    var p := PacketOf(m, TakenId(m, b.nextId));
    assert p.Publish? && p.topic == m.topic;
    UnfoldPacked(b, m, room, v, capacity);
    TrackedWhen(b.table, room, m, b.nextId);
    var free := capacity - |b.pending|;
    if |m.topic| > 0xFFFF {
      LongTopicIsReported(p, v, free);
      LongTopicIsReported(p, v, capacity);
    } else {
      EncodesIff(p, v, free);
      EncodesIff(p, v, capacity);
    }
    hide Packed, PacketOf, TakenId, TrackedOne, Tried, Body, Encoded, Sendable, IdAfter, LengthsFit;
  }

  lemma TrackedWhen(t: I.Table, room: nat, m: PublishMessage, nextId: u16)
    ensures TrackedOne(t, room, m, nextId).1 <==> m.qos == AtMostOnce || nextId in t || |t| < room
  {
  }

  /** Only a slice out of range shows as a panic. */
  lemma OnlyPanicsShow()
    ensures forall e: PacketError :: Some(FromPacketError(e)) == PANIC <==> e == SliceOutOfRange
    ensures PANIC.Some? && Some(InflightQueueFull) != PANIC
  {
  }

  lemma UnfoldPacked(b: Batch, m: PublishMessage, room: nat, v: Version, capacity: nat)
    requires |b.pending| <= capacity
    ensures var p, (t, ok) := PacketOf(m, TakenId(m, b.nextId)), TrackedOne(b.table, room, m, b.nextId);
            var c, first := b.(table := t, nextId := IdAfter(m, b.nextId)), Tried(p, v, capacity - |b.pending|);
            var again := Tried(p, v, capacity);
            Packed(b, m, room, v, capacity)
            == if !ok then c.(failed := Some(InflightQueueFull))
               else if first.Success? then c.(pending := b.pending + Encoded(p, v), sent := b.sent + 1)
               else if first.error != PacketError.BufferTooSmall || b.pending == [] then
                 c.(failed := Some(FromPacketError(first.error)))
               else if again.Success? then
                 c.(wire := b.wire + b.pending, pending := Encoded(p, v), sent := b.sent + 1)
               else c.(wire := b.wire + b.pending, pending := [], failed := Some(FromPacketError(again.error)))
  {
    hide PacketOf, TakenId, Encoded, Tried, TrackedOne, IdAfter, FromPacketError;
  }

  /** Trying behind pending bytes and, after a flush, in the whole buffer. */
  lemma TriedSoFar(p: Packet, v: Version, room: nat, capacity: nat)
    requires room <= capacity && p.Publish?
    ensures Tried(p, v, capacity).Success? <==> Fits(p, v, capacity)
    ensures Tried(p, v, room).Success? ==> Fits(p, v, capacity)
    ensures Tried(p, v, room).Failure? && Tried(p, v, room).error == PayloadTooLarge ==> !Fits(p, v, capacity)
    ensures Tried(p, v, room).Failure? && Tried(p, v, room).error !in {PacketError.BufferTooSmall, PayloadTooLarge} ==>
              Tried(p, v, room).error == SliceOutOfRange
    ensures Sendable(p, v) ==>
              Tried(p, v, room) != Failure(SliceOutOfRange) && Tried(p, v, capacity) != Failure(SliceOutOfRange)
  {
    if Sendable(p, v) {
      SendableNeverPanics(p, v, room);
      SendableNeverPanics(p, v, capacity);
    }
    hide LengthsFit, Space, Panics, Sendable;
  }

  lemma PackedFurther(b: Batch, ms: seq<PublishMessage>, room: nat, v: Version, capacity: nat)
    requires |b.pending| <= capacity && b.failed.None? && ms != []
    ensures var next := Packed(b, ms[0], room, v, capacity);
            && PackedAll(b, ms, room, v, capacity) == PackedAll(next, ms[1..], room, v, capacity)
            && (next.failed.Some? ==> PackedAll(b, ms, room, v, capacity) == next)
  {
    hide Packed;
  }

  /**
   A batch succeeds exactly when the table has room for all of it and every message fits the buffer alone; then all
   of its encodings are on the wire, in order, each under its own identifier. Only a panic can spoil that, and there is
   none while bodies are within the protocol's limit.
   */
  lemma {:induction false} BatchCompleteIff(b: Batch, ms: seq<PublishMessage>, room: nat, v: Version, capacity: nat)
    requires |b.pending| <= capacity && b.failed.None?
    ensures var r, ps := PackedAll(b, ms, room, v, capacity), Stamped(ms, b.nextId);
            var tracked := TrackedAll(b.table, room, ms, b.nextId);
            && (r.failed.None? <==> tracked.Some? && AllFit(ps, v, capacity) && r.failed != PANIC)
            && (r.failed.None? ==>
                  && r.sent == b.sent + |ms| && r.table == tracked.value && r.nextId == IdAfterAll(ms, b.nextId)
                  && r.wire + r.pending == b.wire + b.pending + Concat(Encodings(ps, v)))
            && ((forall p :: p in ps ==> Sendable(p, v)) ==> r.failed != PANIC)
    decreases |ms|
  {
    hide Packed, TrackedOne, IdAfter, Encoded, Fits, PacketOf, Sendable;
    var ps := Stamped(ms, b.nextId);
    if ms == [] {
      NothingEncoded(v);
      assert b.wire + b.pending + [] == b.wire + b.pending;
    } else {
      var next := Packed(b, ms[0], room, v, capacity);
      PackedStep(b, ms[0], room, v, capacity);
      PackedFurther(b, ms, room, v, capacity);
      assert ps == [ps[0]] + ps[1..];
      if next.failed.None? {
        BatchCompleteIff(next, ms[1..], room, v, capacity);
        ConcatCons(Encoded(ps[0], v), Encodings(ps[1..], v));
        Associative(b.wire + b.pending, Encoded(ps[0], v), Concat(Encodings(ps[1..], v)));
      }
    }
  }

  /** However a batch ends, only whole packets are sent, in order: those of some of its first messages. */
  lemma {:induction false} BatchSendsAPrefix(b: Batch, ms: seq<PublishMessage>, room: nat, v: Version, capacity: nat)
    returns (k: nat)
    requires |b.pending| <= capacity && b.failed.None?
    ensures var r, ps := PackedAll(b, ms, room, v, capacity), Stamped(ms, b.nextId);
            k <= |ps| && (r.wire == b.wire || r.wire == b.wire + b.pending + Concat(Encodings(ps[..k], v)))
    decreases |ms|
  {
    hide Packed, TrackedOne, IdAfter, Encoded, Fits, PacketOf, Sendable;
    var ps := Stamped(ms, b.nextId);
    k := 0;
    NothingEncoded(v);
    assert ps[..0] == [] && b.wire + b.pending + [] == b.wire + b.pending;
    if ms != [] {
      var next := Packed(b, ms[0], room, v, capacity);
      PackedStep(b, ms[0], room, v, capacity);
      PackedFurther(b, ms, room, v, capacity);
      if next.failed.None? {
        var j := BatchSendsAPrefix(next, ms[1..], room, v, capacity);
        var r := PackedAll(b, ms, room, v, capacity);
        if r.wire != next.wire {
          k := j + 1;
          assert ps[..k] == [ps[0]] + ps[1..][..j];
          EncodingsAppend([ps[0]], ps[1..][..j], v);
          assert Encodings([ps[0]], v) == [Encoded(ps[0], v)];
          ConcatCons(Encoded(ps[0], v), Encodings(ps[1..][..j], v));
          Associative(b.wire + b.pending, Encoded(ps[0], v), Concat(Encodings(ps[1..][..j], v)));
        }
      }
    }
  }

  // ---- The client ----

  /** What the first read after CONNECT means; a read on which the decoder panics shows as `SliceOutOfRange`. */
  function Answered(read: seq<byte>, v: Version): Result<(), MqttError> {
    if read == [] then Failure(NotConnected)
    else
      match D.Decode(read, v)
      case Failure(e) => Failure(FromPacketError(e))
      case Success(Some(ConnAck(_, code, _))) => if code == 0 then Success(()) else Failure(ConnectionRefused(code))
      case _ => Failure(InvalidResponse)
  }

  /** Only a CONNACK with code 0 connects; its code says why it does not, and any other packet is no answer. */
  lemma AnswerMeans(p: Packet, v: Version, rest: seq<byte>)
    requires Carried(p, v) && Sendable(p, v)
    ensures Answered(Encoded(p, v) + rest, v)
         == if !p.ConnAck? then Failure(InvalidResponse)
            else if p.reasonCode == 0 then Success(()) else Failure(ConnectionRefused(p.reasonCode))
    ensures Answered([], v) == Failure(NotConnected)
    ensures rest != [] && D.Decode(rest, v).Failure? ==>
              Answered(rest, v) == Failure(FromPacketError(D.Decode(rest, v).error))
  {
    hide D.Decode, Encoded, Carried, Sendable;
    R.DecodeInvertsEncoded(p, v, rest);
    EncodedIsNotEmpty(p, v);
  }

  class MqttClient {
    const version: Version
    const transport: Transport
    const inflight: I.InflightQueue
    const txBuffer: array<byte>
    var connected: bool
    var nextPacketId: u16

    ghost predicate Valid()
      reads this, inflight
    {
      && inflight.Valid() && nextPacketId != 0
    }

    constructor (transport: Transport, version: Version, bufSize: nat, maxInflight: nat)
      ensures Valid() && fresh(inflight) && fresh(txBuffer)
      ensures this.transport == transport && this.version == version
      ensures txBuffer.Length == bufSize && inflight.capacity == maxInflight
      ensures !connected && nextPacketId == 1 && inflight.Contents() == map[]
    {
      this.transport, this.version := transport, version;
      inflight := new I.InflightQueue(maxInflight);
      txBuffer := new byte[bufSize];
      connected, nextPacketId := false, 1;
    }

    /** `connect`; `read` is what the transport returns next. A new session starts with an empty table. */
    method Connect(connect: Packet, read: seq<byte>) returns (r: Result<(), MqttError>)
      requires Valid() && connect.Connect?
      modifies this`connected, inflight, transport, txBuffer
      ensures Valid() && connected == r.Success?
      ensures r == match Tried(connect, version, txBuffer.Length)
                   case Success(_) => Answered(read, version)
                   case Failure(e) => Failure(FromPacketError(e))
      ensures inflight.Contents() == if r.Success? then map[] else old(inflight.Contents())
      ensures transport.wire == old(transport.wire) + Sent(connect, version, txBuffer.Length)
    {
      hide Encoded, Panics, Tried, I.Unique, D.Decode, LengthsFit, Space, I.TableOf;
      connected := false;
      var len := Append(connect, version, txBuffer, 0);
      assert txBuffer[..0] + Encoded(connect, version) == Encoded(connect, version);
      assert transport.wire + [] == transport.wire;
      if len.Failure? {
        return Failure(FromPacketError(len.error));
      }
      transport.Send(txBuffer[..len.value]);
      if read == [] {
        return Failure(NotConnected);
      }
      var decoded := D.ReadPacket(read, version);
      match decoded {
        case Failure(e) => return Failure(FromPacketError(e));
        case Success(Some(ConnAck(_, code, _))) =>
          if code != 0 {
            return Failure(ConnectionRefused(code));
          }
        case _ => return Failure(InvalidResponse);
      }
      connected := true;
      NothingTracked();
      inflight.Reset();
      return Success(());
    }

    /** `get_next_packet_id`. */
    method GetNextPacketId() returns (id: u16)
      modifies this`nextPacketId
      ensures id == old(nextPacketId) && nextPacketId == NextId(id)
    {
      id := nextPacketId;
      nextPacketId := (nextPacketId + 1) % 0x1_0000;
      if nextPacketId == 0 {
        nextPacketId := 1;
      }
    }

    /** The opening of every publish: an identifier for QoS 1 and 2, entered into the table. */
    method TakeId(message: PublishMessage) returns (r: Result<Option<u16>, MqttError>)
      requires Valid()
      modifies this`nextPacketId, inflight
      ensures Valid() && nextPacketId == IdAfter(message, old(nextPacketId))
      ensures (inflight.Contents(), r.Success?)
           == TrackedOne(old(inflight.Contents()), inflight.capacity, message, old(nextPacketId))
      ensures r == if r.Success? then Success(TakenId(message, old(nextPacketId))) else Failure(InflightQueueFull)
    {
      if message.qos == AtMostOnce {
        return Success(None);
      }
      var pid := GetNextPacketId();
      var ok := inflight.TrackOutboundPacket(pid, message.qos);
      return if ok then Success(Some(pid)) else Failure(InflightQueueFull);
    }

    /** `publish`. A message the encoder refuses stays in the table. */
    method PublishOne(message: PublishMessage) returns (r: Result<(), MqttError>)
      requires Valid() && !message.dup && !message.retain
      modifies this`nextPacketId, inflight, transport, txBuffer
      ensures Valid()
      ensures !connected ==> r == Failure(NotConnected) && nextPacketId == old(nextPacketId)
                             && inflight.Contents() == old(inflight.Contents()) && transport.wire == old(transport.wire)
      ensures connected ==>
                var id := if message.qos == AtMostOnce then None else Some(old(nextPacketId));
                var p := Publish(false, message.qos, false, message.topic, id, message.payload, []);
                var (t, room) := TrackedOne(old(inflight.Contents()), inflight.capacity, message, old(nextPacketId));
                && nextPacketId == IdAfter(message, old(nextPacketId)) && inflight.Contents() == t
                && r == (if !room then Failure(InflightQueueFull)
                         else if Tried(p, version, txBuffer.Length).Success? then Success(())
                         else Failure(FromPacketError(Tried(p, version, txBuffer.Length).error)))
                && transport.wire == old(transport.wire) + if r.Success? then Encoded(p, version) else []
    {
      hide I.TableOf, I.Unique, Encoded, LengthsFit, Space, Panics, Tried, TrackedOne, IdAfter, PacketOf;
      assert transport.wire + [] == transport.wire;
      if !connected {
        return Failure(NotConnected);
      }
      PacketCarries(message, nextPacketId);
      var packetId := TakeId(message);
      if packetId.Failure? {
        return Failure(packetId.error);
      }
      var p := PacketOf(message, packetId.value);
      IsPublish(message, packetId.value);
      var len := Append(p, version, txBuffer, 0);
      if len.Failure? {
        return Failure(FromPacketError(len.error));
      }
      transport.Send(txBuffer[..len.value]);
      assert txBuffer[..0] + Encoded(p, version) == Encoded(p, version);
      return Success(());
    }

    /** What a batch has done so far, with `buffered` bytes of `tx_buffer` pending. */
    function SoFar(buffered: nat, sent: nat): Batch
      requires buffered <= txBuffer.Length
      reads this, inflight, transport, txBuffer
    {
      Batch(inflight.Contents(), nextPacketId, transport.wire, txBuffer[..buffered], sent, None)
    }

    /** One turn of the batch loop; the result is the new number of pending bytes. */
    method BatchTurn(message: PublishMessage, buffered: nat, sent: nat) returns (r: Result<nat, MqttError>)
      requires Valid() && !message.dup && buffered <= txBuffer.Length
      modifies this`nextPacketId, inflight, transport, txBuffer
      ensures Valid()
      ensures var b := Packed(old(SoFar(buffered, sent)), message, inflight.capacity, version, txBuffer.Length);
              && b.table == inflight.Contents() && b.nextId == nextPacketId && b.wire == transport.wire
              && (r.Failure? ==> b.failed == Some(r.error))
              && (r.Success? ==> r.value <= txBuffer.Length && b == SoFar(r.value, sent + 1))
    {
      hide I.TableOf, I.Unique, Encoded, LengthsFit, Space, Panics, Tried, TrackedOne, IdAfter, PacketOf;
      var packetId := TakeId(message);
      if packetId.Failure? {
        return Failure(packetId.error);
      }
      var p := PacketOf(message, packetId.value);
      IsPublish(message, packetId.value);
      var len := Append(p, version, txBuffer, buffered);
      if len.Success? {
        return Success(len.value);
      }
      if len.error != PacketError.BufferTooSmall || buffered == 0 {
        return Failure(FromPacketError(len.error));
      }
      transport.Send(txBuffer[..buffered]);
      len := Append(p, version, txBuffer, 0);
      assert txBuffer[..0] + Encoded(p, version) == Encoded(p, version);
      if len.Failure? {
        return Failure(FromPacketError(len.error));
      }
      return Success(len.value);
    }

    /** `publish_batch`. */
    method PublishBatch(messages: seq<PublishMessage>) returns (r: Result<nat, MqttError>)
      requires Valid() && forall m :: m in messages ==> !m.dup
      modifies this`nextPacketId, inflight, transport, txBuffer
      ensures Valid()
      ensures !connected ==> r == Failure(NotConnected) && nextPacketId == old(nextPacketId)
                             && inflight.Contents() == old(inflight.Contents()) && transport.wire == old(transport.wire)
      ensures connected ==>
                var b := PackedAll(NewBatch(old(inflight.Contents()), old(nextPacketId), old(transport.wire)), messages,
                                   inflight.capacity, version, txBuffer.Length);
                && inflight.Contents() == b.table && nextPacketId == b.nextId
                && r == (if b.failed.Some? then Failure(b.failed.value) else Success(b.sent))
                && transport.wire == b.wire + if b.failed.Some? then [] else b.pending
    {
      hide I.TableOf, I.Unique, Packed;
      if !connected {
        return Failure(NotConnected);
      }
      var cursor: nat, sentCount: nat := 0, 0;
      ghost var all := PackedAll(SoFar(0, 0), messages, inflight.capacity, version, txBuffer.Length);
      assert messages[0..] == messages && txBuffer[..0] == [];
      for i := 0 to |messages|
        invariant Valid() && cursor <= txBuffer.Length
        invariant PackedAll(SoFar(cursor, sentCount), messages[i..], inflight.capacity, version, txBuffer.Length) == all
      {
        PackedFurther(SoFar(cursor, sentCount), messages[i..], inflight.capacity, version, txBuffer.Length);
        assert messages[i..][1..] == messages[i + 1..];
        hide PackedAll;
        var turn := BatchTurn(messages[i], cursor, sentCount);
        if turn.Failure? {
          assert transport.wire + [] == transport.wire;
          return Failure(turn.error);
        }
        cursor, sentCount := turn.value, sentCount + 1;
      }
      assert messages[|messages|..] == [];
      if cursor > 0 {
        transport.Send(txBuffer[..cursor]);
      }
      assert cursor == 0 ==> transport.wire + txBuffer[..cursor] == transport.wire;
      return Success(sentCount);
    }

    /** The variable header, built in a scratch buffer of 256 bytes. A slice out of its range panics in the source. */
    method BuildStreamHead(topic: seq<byte>, id: Option<u16>) returns (r: Result<seq<byte>, MqttError>)
      ensures r.Success? <==> |StreamHead(topic, id, version)| <= 256
      ensures r.Success? ==> r.value == StreamHead(topic, id, version)
      ensures r.Failure? ==> r.error == if |topic| > 0xFFFF then Protocol(PayloadTooLarge)
                                        else if |topic| > 254 then MqttError.BufferTooSmall
                                        else Protocol(SliceOutOfRange)
    {
      hide F.Prefixed, BigEndian16;
      var varBuf := new byte[256];
      var text := F.PutPrefixed(varBuf, 0, topic);
      if text.Failure? {
        return Failure(FromPacketError(text.error));
      }
      var varCursor := text.value;
      ghost var head := varBuf[..varCursor];
      assert head == F.Prefixed(topic);
      if id.Some? {
        if varCursor + 2 > 256 {
          return Failure(Protocol(SliceOutOfRange));
        }
        var put := F.PutBytes(varBuf, varCursor, BigEndian16(id.value));
        varCursor := varCursor + 2;
        Joined(varBuf, varCursor - 2, 2);
        head := head + BigEndian16(id.value);
      }
      assert varBuf[..varCursor] == head;
      if version == V5 {
        if varCursor + 1 > 256 {
          return Failure(Protocol(SliceOutOfRange));
        }
        varBuf[varCursor] := 0;
        varCursor := varCursor + 1;
        assert varBuf[..varCursor] == head + [0];
      }
      assert varBuf[..varCursor] == StreamHead(topic, id, version);
      return Success(varBuf[..varCursor]);
    }

    /** The fixed header, built in a scratch buffer of 16 bytes. */
    method BuildStreamStart(qos: QoS, remaining: nat) returns (r: Result<seq<byte>, MqttError>)
      ensures r == if |VarInt.Encoding(remaining)| <= 15
                   then Success([0x30 + 2 * QoSBits(qos)] + VarInt.Encoding(remaining))
                   else Failure(MqttError.BufferTooSmall)
    {
      var headerBuf := new byte[16];
      headerBuf[0] := 0x30 + 2 * QoSBits(qos);
      var lenBytes := VarInt.WriteVariableByteIntegerLen(headerBuf, 1, remaining);
      if lenBytes.Failure? {
        return Failure(FromPacketError(lenBytes.error));
      }
      assert headerBuf[..1 + lenBytes.value] == [headerBuf[0]] + headerBuf[1..1 + lenBytes.value];
      return Success(headerBuf[..1 + lenBytes.value]);
    }

    /**
     `begin_stream_publish`. A topic too long for the scratch buffer is noticed only after the fixed header is out, so
     the failed call leaves an announced frame without a body on the wire.
     */
    method BeginStreamPublish(topic: seq<byte>, totalPayloadLen: nat, qos: QoS)
      returns (r: Result<MqttStreamWriter, MqttError>)
      requires Valid()
      modifies this`nextPacketId, inflight, transport
      ensures Valid()
      ensures !connected ==> r == Failure(NotConnected) && nextPacketId == old(nextPacketId)
                             && inflight.Contents() == old(inflight.Contents()) && transport.wire == old(transport.wire)
      ensures connected ==>
                var m := PublishMessage(topic, [], qos, false, false, None);
                var id, (t, room) := TakenId(m, old(nextPacketId)),
                                     TrackedOne(old(inflight.Contents()), inflight.capacity, m, old(nextPacketId));
                var head := StreamHead(topic, id, version);
                var start := StreamStart(qos, topic, id, totalPayloadLen, version);
                && nextPacketId == IdAfter(m, old(nextPacketId)) && inflight.Contents() == t
                && (r.Success? <==> room && |start| <= 16 && |head| <= 256)
                && (r.Failure? ==> r.error == if !room then InflightQueueFull
                                              else if |start| > 16 then MqttError.BufferTooSmall
                                              else if |topic| > 0xFFFF then Protocol(PayloadTooLarge)
                                              else if |topic| > 254 then MqttError.BufferTooSmall
                                              else Protocol(SliceOutOfRange))
                && transport.wire == old(transport.wire) + (if room && |start| <= 16 then start else [])
                                     + (if r.Success? then head else [])
      ensures r.Success? ==> fresh(r.value) && r.value.Valid() && r.value.transport == transport
                             && r.value.totalLen == totalPayloadLen && r.value.written == []
    {
      hide I.TableOf, TrackedOne, IdAfter, F.Prefixed, VarInt.Encoding, I.Unique;
      if !connected {
        return Failure(NotConnected);
      }
      assert transport.wire + [] + [] == transport.wire;
      var packetId := TakeId(PublishMessage(topic, [], qos, false, false, None));
      if packetId.Failure? {
        return Failure(packetId.error);
      }
      ghost var wire := transport.wire;
      var variableHeaderLen := 2 + |topic| + (if packetId.value.Some? then 2 else 0) + (if version == V5 then 1 else 0);
      assert variableHeaderLen == |StreamHead(topic, packetId.value, version)|;
      hide StreamHead;
      var header := BuildStreamStart(qos, variableHeaderLen + totalPayloadLen);
      if header.Failure? {
        return Failure(header.error);
      }
      transport.Send(header.value);
      assert transport.wire + [] == transport.wire;
      var head := BuildStreamHead(topic, packetId.value);
      if head.Failure? {
        return Failure(head.error);
      }
      transport.Send(head.value);
      var writer := new MqttStreamWriter(transport, totalPayloadLen);
      return Success(writer);
    }

    // ---- Polling ----

    function Limit(maxEvents: nat): Limits {
      Limits(inflight.capacity, maxEvents, version, txBuffer.Length)
    }

    function State(events: seq<Packet>, failed: Option<MqttError>): Polled
      reads this, inflight, transport
    {
      Polled(inflight.Contents(), transport.wire, connected, events, failed)
    }

    /** Encodes and sends an acknowledgement. */
    method Reply(id: u16, p: Packet) returns (r: Result<(), MqttError>)
      requires Valid() && p in {PubAck(Bare(id)), PubRec(Bare(id)), PubRel(Bare(id)), PubComp(Bare(id))}
      modifies transport, txBuffer
      ensures Valid()
      ensures r == if Fits(p, version, txBuffer.Length) then Success(()) else Failure(MqttError.BufferTooSmall)
      ensures transport.wire == old(transport.wire) + if r.Success? then Encoded(p, version) else []
    {
      AcksNeverPanic(id, version, txBuffer.Length);
      assert LengthsFit(p);
      hide Encoded, I.Unique, LengthsFit, Space, Panics, Bare;
      var len := Append(p, version, txBuffer, 0);
      assert txBuffer[..0] + Encoded(p, version) == Encoded(p, version) && transport.wire + [] == transport.wire;
      if len.Failure? {
        return Failure(FromPacketError(len.error));
      }
      transport.Send(txBuffer[..len.value]);
      return Success(());
    }

    method Note(p: Packet, events: seq<Packet>, maxEvents: nat) returns (noted: seq<Packet>)
      ensures noted == if |events| >= maxEvents then events else events + [p]
    {
      return if |events| >= maxEvents then events else events + [p];
    }

    /** The `match packet` of `poll_batch`; the result is the new list of events. */
    method HandlePacket(p: Packet, events: seq<Packet>, maxEvents: nat) returns (r: Result<seq<Packet>, MqttError>)
      requires Valid()
      modifies this`connected, inflight, transport, txBuffer
      ensures Valid()
      ensures State(if r.Success? then r.value else events, if r.Failure? then Some(r.error) else None)
           == Handled(old(State(events, None)), p, Limit(maxEvents))
    {
      hide I.TableOf, I.Applied, I.Unique, Encoded, Fits, Bare;
      assert transport.wire + [] == transport.wire;
      match p {
        case Publish(_, qos, _, _, packetId, _, _) =>
          if packetId.Some? && qos == AtLeastOnce {
            var _ :- Reply(packetId.value, PubAck(Bare(packetId.value)));
          } else if packetId.Some? && qos == ExactlyOnce {
            var _ :- Reply(packetId.value, PubRec(Bare(packetId.value)));
            var _ := inflight.TrackInboundQoS2(packetId.value);
          }
        case PubAck(a) =>
          var _ := inflight.HandlePubAck(a.packetId);
        case PubRec(a) =>
          var _ := inflight.HandlePubRec(a.packetId);
          var _ :- Reply(a.packetId, PubRel(Bare(a.packetId)));
        case PubRel(a) =>
          var _ := inflight.HandlePubRel(a.packetId);
          var _ :- Reply(a.packetId, PubComp(Bare(a.packetId)));
        case PubComp(a) =>
          var _ := inflight.HandlePubComp(a.packetId);
        case SubAck(_, _, _) =>
        case UnsubAck(_, _, _) =>
        case PingResp =>
        case Disconnect(_, _) =>
          connected := false;
        case _ =>
          return Success(events);
      }
      var noted := Note(p, events, maxEvents);
      return Success(noted);
    }

    /** `poll_batch`; `read` is what the transport returns. */
    method PollBatch(read: seq<byte>, maxEvents: nat) returns (r: Result<seq<Packet>, MqttError>)
      requires Valid()
      modifies this`connected, inflight, transport, txBuffer
      ensures Valid()
      ensures !old(connected) ==> r == Failure(NotConnected) && State([], None) == old(State([], None))
      ensures old(connected) && read == [] ==> r == Success([]) && State([], None) == old(State([], None))
      ensures old(connected) && read != [] ==>
                var e := PolledRead(old(State([], None)), read, Limit(maxEvents));
                && State(e.events, e.failed) == e
                && r == if e.failed.Some? then Failure(e.failed.value) else Success(e.events)
    {
      hide Handled, I.TableOf, I.Unique, D.Decode, FrontOf, Frames, Tail;
      if !connected {
        return Failure(NotConnected);
      }
      if read == [] {
        return Success([]);
      }
      var events: seq<Packet> := [];
      var iter := new FrameIter(read);
      assert read[0..] == read;
      ghost var start := State([], None);
      while true
        invariant Valid() && iter.Valid() && iter.buffer == read
        invariant PolledFrames(State(events, None), Frames(read[iter.offset..]), Limit(maxEvents))
               == PolledFrames(start, Frames(read), Limit(maxEvents))
        invariant Tail(read[iter.offset..]) == Tail(read)
        decreases |read| - iter.offset
      {
        NextItem(read, iter.offset);
        var item := iter.Next();
        match item
        case None => break;
        case Some(Failure(e)) =>
          return Failure(FromPacketError(e));
        case Some(Success(frame)) =>
          var decoded := D.ReadPacket(frame, version);
          if decoded.Failure? {
            return Failure(FromPacketError(decoded.error));
          }
          if decoded.value.Some? {
            events :- HandlePacket(decoded.value.value, events, maxEvents);
          }
      }
      return Success(events);
    }
  }

  lemma IsPublish(m: PublishMessage, id: Option<u16>)
    ensures PacketOf(m, id).Publish?
  {
  }

  lemma NothingTracked()
    ensures I.TableOf([]) == map[]
  {
  }
}
