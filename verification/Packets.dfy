/** Control packets (crates/mqtt-packet/src/packet_types.rs) and the bytes each one stands for on the wire. */
module Packets {
  import opened Wrappers
  import opened Bytes
  import opened Fields
  import opened Properties
  import VarInt

  datatype QoS = AtMostOnce | AtLeastOnce | ExactlyOnce

  /** `QoS::from(u8)`: every value above 1 means exactly once. */
  function QoSFrom(val: nat): QoS {
    match val
    case 0 => AtMostOnce
    case 1 => AtLeastOnce
    case _ => ExactlyOnce
  }

  function QoSBits(q: QoS): (n: nat)
    ensures n <= 2 && QoSFrom(n) == q
  {
    match q
    case AtMostOnce => 0
    case AtLeastOnce => 1
    case ExactlyOnce => 2
  }

  datatype Version = V3_1_1 | V3 | V5

  datatype Will = Will(topic: seq<byte>, payload: seq<byte>, qos: QoS, retain: bool, properties: seq<Property>)

  /** The body shared by PUBACK, PUBREC, PUBREL and PUBCOMP. */
  datatype Ack = Ack(packetId: u16, reasonCode: byte, properties: seq<Property>)

  datatype Packet =
    | Connect(cleanSession: bool, keepAlive: u16, clientId: seq<byte>, username: Option<seq<byte>>,
              password: Option<seq<byte>>, will: Option<Will>, properties: seq<Property>)
    | ConnAck(sessionPresent: bool, reasonCode: byte, properties: seq<Property>)
    | Publish(dup: bool, qos: QoS, retain: bool, topic: seq<byte>, packetId: Option<u16>, payload: seq<byte>,
              properties: seq<Property>)
    | PubAck(ack: Ack)
    | PubRec(ack: Ack)
    | PubRel(ack: Ack)
    | PubComp(ack: Ack)
    | Subscribe(subscribeId: u16, filters: seq<(seq<byte>, QoS)>, properties: seq<Property>)
    | SubAck(ackedId: u16, reasonCodes: seq<byte>, properties: seq<Property>)
    | Unsubscribe(unsubscribeId: u16, topics: seq<seq<byte>>, properties: seq<Property>)
    | UnsubAck(ackedId: u16, reasonCodes: seq<byte>, properties: seq<Property>)
    | PingReq
    | PingResp
    | Disconnect(disconnectReason: byte, properties: seq<Property>)

  /** Capacity of the topic, filter and reason-code vectors. */
  const MAX_BATCH: nat := 8

  /** `"MQTT"`. */
  const PROTOCOL_NAME: seq<byte> := [0x4D, 0x51, 0x54, 0x54]

  /** `"MQIsdp"`, which the decoder also accepts. */
  const OLD_PROTOCOL_NAME: seq<byte> := [0x4D, 0x51, 0x49, 0x73, 0x64, 0x70]

  // ---- Well-formed packets ----

  /** A `&str` that fits a two-byte length. */
  predicate Text(s: seq<byte>) {
    |s| <= 0xFFFF && ValidUtf8(s)
  }

  /** Properties a packet of this version can carry. */
  predicate Carries(ps: seq<Property>, v: Version) {
    WellFormed(ps) && (v != V5 ==> ps == [])
  }

  predicate WillCarried(w: Will, v: Version) {
    Text(w.topic) && |w.payload| <= 0xFFFF && Carries(w.properties, v)
  }

  predicate AckCarried(a: Ack, v: Version) {
    Carries(a.properties, v) && (v != V5 ==> a.reasonCode == 0)
  }

  /** Fields the version cannot carry are at their defaults, and the packet id is there exactly when QoS > 0. */
  predicate Carried(p: Packet, v: Version) {
    match p
    case Connect(_, _, clientId, username, password, will, properties) =>
      && Text(clientId) && Carries(properties, v)
      && (username.Some? ==> Text(username.value))
      && (password.Some? ==> Text(password.value))
      && (will.Some? ==> WillCarried(will.value, v))
    case ConnAck(_, _, properties) => Carries(properties, v)
    case Publish(_, qos, _, topic, packetId, _, properties) =>
      Text(topic) && (packetId.Some? <==> qos != AtMostOnce) && Carries(properties, v)
    case PubAck(a) => AckCarried(a, v)
    case PubRec(a) => AckCarried(a, v)
    case PubRel(a) => AckCarried(a, v)
    case PubComp(a) => AckCarried(a, v)
    case Subscribe(_, filters, properties) =>
      |filters| <= MAX_BATCH && (forall f :: f in filters ==> Text(f.0)) && Carries(properties, v)
    case SubAck(_, codes, properties) => |codes| <= MAX_BATCH && Carries(properties, v)
    case Unsubscribe(_, topics, properties) =>
      |topics| <= MAX_BATCH && (forall t :: t in topics ==> Text(t)) && Carries(properties, v)
    case UnsubAck(_, codes, properties) => |codes| <= MAX_BATCH && Carries(properties, v)
    case PingReq => true
    case PingResp => true
    case Disconnect(reason, properties) => Carries(properties, v) && (v != V5 ==> reason == 0)
  }

  // ---- Bytes on the wire ----

  function PropertyField(ps: seq<Property>, v: Version): seq<byte> {
    if v == V5 then Block(ps) else []
  }

  function ConnectFlags(clean: bool, username: bool, password: bool, will: Option<Will>): byte {
    Weight(clean, 2)
    + (if will.Some? then 4 + 8 * QoSBits(will.value.qos) + Weight(will.value.retain, 32) else 0)
    + Weight(password, 64) + Weight(username, 128)
  }

  function LevelOf(v: Version): byte {
    if v == V5 then 5 else 4
  }

  function WillBytes(will: Option<Will>, v: Version): seq<byte> {
    match will
    case None => []
    case Some(w) => PropertyField(w.properties, v) + Prefixed(w.topic) + Prefixed(w.payload)
  }

  function OptionalText(s: Option<seq<byte>>): seq<byte> {
    match s
    case None => []
    case Some(text) => Prefixed(text)
  }

  /** Reason code and properties are left out when both are at their defaults. */
  function ReasonBytes(reason: byte, ps: seq<Property>, v: Version): seq<byte> {
    if v == V5 && (ps != [] || reason != 0) then [reason] + Block(ps) else []
  }

  function FilterBytes(filters: seq<(seq<byte>, QoS)>): seq<byte> {
    if filters == [] then []
    else Prefixed(filters[0].0) + [QoSBits(filters[0].1)] + FilterBytes(filters[1..])
  }

  function TopicBytes(topics: seq<seq<byte>>): seq<byte> {
    if topics == [] then [] else Prefixed(topics[0]) + TopicBytes(topics[1..])
  }

  function PacketIdBytes(qos: QoS, packetId: Option<u16>): seq<byte> {
    if qos == AtMostOnce then [] else BigEndian16(if packetId.Some? then packetId.value else 1)
  }

  /** The first eight bytes of every CONNECT body, then the keep-alive. */
  function ConnectHead(p: Packet, v: Version): seq<byte>
    requires p.Connect?
  {
    Prefixed(PROTOCOL_NAME) + [LevelOf(v)]
    + [ConnectFlags(p.cleanSession, p.username.Some?, p.password.Some?, p.will)] + BigEndian16(p.keepAlive)
  }

  /** Variable header and payload. */
  function Body(p: Packet, v: Version): seq<byte> {
    match p
    case Connect(_, _, clientId, username, password, will, properties) =>
      ConnectHead(p, v) + PropertyField(properties, v) + Prefixed(clientId) + WillBytes(will, v)
      + OptionalText(username) + OptionalText(password)
    case ConnAck(sessionPresent, reason, properties) =>
      [Weight(sessionPresent, 1)] + [reason] + PropertyField(properties, v)
    case Publish(_, qos, _, topic, packetId, payload, properties) =>
      Prefixed(topic) + PacketIdBytes(qos, packetId) + PropertyField(properties, v) + payload
    case PubAck(a) => AckBytes(a, v)
    case PubRec(a) => AckBytes(a, v)
    case PubRel(a) => AckBytes(a, v)
    case PubComp(a) => AckBytes(a, v)
    case Subscribe(id, filters, properties) =>
      BigEndian16(id) + PropertyField(properties, v) + FilterBytes(filters)
    case SubAck(id, codes, properties) => BigEndian16(id) + PropertyField(properties, v) + codes
    case Unsubscribe(id, topics, properties) =>
      BigEndian16(id) + PropertyField(properties, v) + TopicBytes(topics)
    case UnsubAck(id, codes, properties) => BigEndian16(id) + PropertyField(properties, v) + codes
    case PingReq => []
    case PingResp => []
    case Disconnect(reason, properties) => ReasonBytes(reason, properties, v)
  }

  function AckBytes(a: Ack, v: Version): seq<byte> {
    BigEndian16(a.packetId) + ReasonBytes(a.reasonCode, a.properties, v)
  }

  /** Packet type and flags. */
  function FirstByte(p: Packet): byte {
    match p
    case Connect(_, _, _, _, _, _, _) => 0x10
    case ConnAck(_, _, _) => 0x20
    case Publish(dup, qos, retain, _, _, _, _) => 0x30 + Weight(dup, 8) + 2 * QoSBits(qos) + Weight(retain, 1)
    case PubAck(_) => 0x40
    case PubRec(_) => 0x50
    case PubRel(_) => 0x62
    case PubComp(_) => 0x70
    case Subscribe(_, _, _) => 0x82
    case SubAck(_, _, _) => 0x90
    case Unsubscribe(_, _, _) => 0xA2
    case UnsubAck(_, _, _) => 0xB0
    case PingReq => 0xC0
    case PingResp => 0xD0
    case Disconnect(_, _) => 0xE0
  }

  /**
   The body behind a length field written into four reserved bytes: a longer field runs into the body, and its end takes
   the place of the body's first bytes.
   */
  function Overrun(length: seq<byte>, body: seq<byte>): (r: seq<byte>)
    ensures |r| == |body|
    ensures |length| <= 4 ==> r == body
  {
    if 4 < |length| <= 4 + |body| then length[4..] + body[|length| - 4..] else body
  }

  /** What the encoders make of a body: first byte, minimal remaining length, body. */
  function Frame(first: byte, body: seq<byte>): (s: seq<byte>)
    ensures |s| == 1 + |VarInt.Encoding(|body|)| + |body|
  {
    [first] + VarInt.Encoding(|body|) + Overrun(VarInt.Encoding(|body|), body)
  }

  /** Within the protocol's limit the body is intact. */
  lemma FrameIs(first: byte, body: seq<byte>)
    requires |body| <= VarInt.MAX_VARINT
    ensures Frame(first, body) == [first] + VarInt.Encoding(|body|) + body
  {
    VarInt.EncodingLength(|body|);
  }

  function Encoded(p: Packet, v: Version): seq<byte> {
    Frame(FirstByte(p), Body(p, v))
  }

  /** The body is within the protocol's limit. */
  predicate Sendable(p: Packet, v: Version) {
    |Body(p, v)| <= VarInt.MAX_VARINT
  }
}
