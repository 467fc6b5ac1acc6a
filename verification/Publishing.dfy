/** Outgoing messages, one packet identifier each where one is needed, and bursts of them in one buffer. */
module Publishing {
  import opened Wrappers
  import opened Bytes
  import opened PacketErrors
  import opened Packets
  import opened Encoder
  import opened Framing
  import opened PacketIds
  import VarInt

  datatype PublishMessage = PublishMessage(topic: seq<byte>, payload: seq<byte>, qos: QoS, retain: bool, dup: bool,
                                           packetId: Option<u16>)

  function PacketOf(m: PublishMessage, id: Option<u16>): Packet {
    Publish(m.dup, m.qos, m.retain, m.topic, id, m.payload, [])
  }

  /** Only QoS 1 and 2 take an identifier. */
  function TakenId(m: PublishMessage, nextId: u16): Option<u16> {
    if m.qos == AtMostOnce then None else Some(nextId)
  }

  function IdAfter(m: PublishMessage, nextId: u16): u16 {
    if m.qos == AtMostOnce then nextId else NextId(nextId)
  }

  /** The packets of a burst. */
  function Stamped(ms: seq<PublishMessage>, nextId: u16): (ps: seq<Packet>)
    ensures |ps| == |ms|
    decreases |ms|
  {
    if ms == [] then []
    else [PacketOf(ms[0], TakenId(ms[0], nextId))] + Stamped(ms[1..], IdAfter(ms[0], nextId))
  }

  /** A message goes out with the fields it has, and with an identifier above QoS 0. */
  lemma PacketCarries(m: PublishMessage, nextId: u16)
    ensures var id := if m.qos == AtMostOnce then None else Some(nextId);
            PacketOf(m, TakenId(m, nextId)) == Publish(m.dup, m.qos, m.retain, m.topic, id, m.payload, [])
  {
  }

  /** A burst carries its messages field by field: DUP and RETAIN as given, an identifier exactly above QoS 0. */
  lemma {:induction false} StampedCarries(ms: seq<PublishMessage>, nextId: u16, i: nat)
    requires i < |ms|
    ensures var p, m := Stamped(ms, nextId)[i], ms[i];
            && p.Publish? && p == Publish(m.dup, m.qos, m.retain, m.topic, p.packetId, m.payload, [])
            && (p.packetId.Some? <==> m.qos != AtMostOnce)
    decreases i
  {
    hide NextId;
    if i > 0 {
      StampedCarries(ms[1..], IdAfter(ms[0], nextId), i - 1);
    }
  }

  /** The encoder takes the packet, given an empty buffer. */
  predicate Fits(p: Packet, v: Version, capacity: nat) {
    LengthsFit(p) && Space(p, v) <= capacity
  }

  predicate AllFit(ps: seq<Packet>, v: Version, capacity: nat) {
    forall p :: p in ps ==> Fits(p, v, capacity)
  }

  function Bare(id: u16): Ack {
    Ack(id, 0, [])
  }

  /** Seven bytes are room enough for any plain acknowledgement. */
  lemma AcksFit(id: u16, v: Version, capacity: nat)
    requires capacity >= 7
    ensures Fits(PubAck(Bare(id)), v, capacity) && Fits(PubRec(Bare(id)), v, capacity)
    ensures Fits(PubRel(Bare(id)), v, capacity) && Fits(PubComp(Bare(id)), v, capacity)
  {
    var a := Bare(id);
    assert AckBytes(a, v) == BigEndian16(id) + [];
    assert |AckBytes(a, v)| == 2;
    hide AckBytes;
    assert Body(PubAck(a), v) == Body(PubRec(a), v) == Body(PubRel(a), v) == Body(PubComp(a), v) == AckBytes(a, v);
  }

  /** Within the protocol's limit an encoder of a body that is not empty never panics. */
  lemma SendableNeverPanics(p: Packet, v: Version, room: nat)
    requires Sendable(p, v) && !p.Disconnect?
    ensures !Panics(p, v, room)
  {
    VarInt.EncodingLength(|Body(p, v)|);
    BodyIsEmptyOnlyInDisconnect(p, v);
    hide Body, LengthsFit;
  }

  /** A packet goes into an empty buffer if and only if its texts fit their prefixes and the buffer has the room. */
  lemma FitsIff(p: Packet, v: Version, capacity: nat)
    requires Sendable(p, v)
    ensures Fits(p, v, capacity)
       <==> LengthsFit(p) && (if p.PingReq? || p.PingResp? then 2 else 5 + |Body(p, v)|) <= capacity
  {
    VarInt.EncodingLength(|Body(p, v)|);
    hide Body, LengthsFit;
  }

  lemma FitsOrPanics(p: Packet, v: Version, capacity: nat)
    ensures Fits(p, v, capacity) ==> !Panics(p, v, capacity)
  {
    hide Body, LengthsFit;
  }

  lemma AcksNeverPanic(id: u16, v: Version, room: nat)
    ensures !Panics(PubAck(Bare(id)), v, room) && !Panics(PubRec(Bare(id)), v, room)
    ensures !Panics(PubRel(Bare(id)), v, room) && !Panics(PubComp(Bare(id)), v, room)
  {
    var a := Bare(id);
    assert |AckBytes(a, v)| == 2;
    hide AckBytes;
    assert Body(PubAck(a), v) == Body(PubRec(a), v) == Body(PubRel(a), v) == Body(PubComp(a), v) == AckBytes(a, v);
    SendableNeverPanics(PubAck(a), v, room);
    SendableNeverPanics(PubRec(a), v, room);
    SendableNeverPanics(PubRel(a), v, room);
    SendableNeverPanics(PubComp(a), v, room);
  }

  /** Encodes behind the first `buffered` bytes of `buf`; the result is the new number of buffered bytes. */
  method Append(p: Packet, v: Version, buf: array<byte>, buffered: nat) returns (end: Result<nat, PacketError>)
    requires buffered <= buf.Length
    modifies buf
    ensures buf[..buffered] == old(buf[..buffered])
    ensures end.Success? <==> LengthsFit(p) && Space(p, v) <= buf.Length - buffered
    ensures end.Success? ==> buffered < end.value <= buf.Length && end.value == buffered + |Encoded(p, v)|
                             && buf[..end.value] == old(buf[..buffered]) + Encoded(p, v)
    ensures end == Failure(SliceOutOfRange) <==> Panics(p, v, buf.Length - buffered)
    ensures if end.Success? then Tried(p, v, buf.Length - buffered).Success?
            else Tried(p, v, buf.Length - buffered) == Failure(end.error)
  {
    hide *;
    EncodedIsNotEmpty(p, v);
    TriedMeans(p, v, buf.Length - buffered);
    TriedLength(p, v, buf.Length - buffered);
    end := Encode(p, v, buf, buffered);
    if end.Success? {
      Joined(buf, buffered, end.value);
      end := Success(buffered + end.value);
    }
  }

  lemma TriedLength(p: Packet, v: Version, room: nat)
    ensures Tried(p, v, room).Success? ==> Tried(p, v, room).value == |Encoded(p, v)|
  {
    hide ShapeOf, Encoded, Space, Panics;
  }

  lemma EncodedIsNotEmpty(p: Packet, v: Version)
    ensures Encoded(p, v) != []
  {
    hide FirstByte, Body;
  }

  lemma Joined(s: array<byte>, lo: nat, n: nat)
    requires lo + n <= s.Length
    ensures s[..lo + n] == s[..lo] + s[lo..lo + n]
  {
  }

  /** What a packet adds to the wire when those the encoder refuses are skipped. */
  function Sent(p: Packet, v: Version, capacity: nat): seq<byte> {
    if Fits(p, v, capacity) then Encoded(p, v) else []
  }

  function SentAll(ps: seq<Packet>, v: Version, capacity: nat): seq<byte> {
    if ps == [] then [] else Sent(ps[0], v, capacity) + SentAll(ps[1..], v, capacity)
  }

  /** Nothing is skipped when everything fits. */
  lemma {:induction false} AllFitIsSent(ps: seq<Packet>, v: Version, capacity: nat)
    requires AllFit(ps, v, capacity)
    ensures SentAll(ps, v, capacity) == Concat(Encodings(ps, v))
  {
    hide Fits, Encoded;
    if ps != [] {
      AllFitIsSent(ps[1..], v, capacity);
    }
  }
}
