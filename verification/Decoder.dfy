/**
 Packet decoders (the `DecodePacket` implementations and `decode` of crates/mqtt-packet/src/codec.rs).

 The functions say what is read from which index; the methods follow the source's cursors and loops.
 A result `Failure(SliceOutOfRange)` stands for the panic of `&buf[cursor..content_end]` in PUBLISH.
 */
module Decoder {
  import opened Wrappers
  import opened Bytes
  import opened PacketErrors
  import opened Fields
  import opened Properties
  import opened Packets
  import VarInt

  type Decoded = Result<Packet, PacketError>

  // ---- What is read ----

  /** Where the content ends, and where it starts. */
  function Content(buf: seq<byte>): (r: Result<(nat, nat), PacketError>)
    requires buf != []
    ensures r.Success? ==> 1 < r.value.1 <= r.value.0 <= |buf|
  {
    var (len, start) :- ParseVarInt(buf, 1);
    if start + len > |buf| then Failure(IncompletePacket) else Success((start + len, start))
  }

  /** Properties are read only when the packet has them and something is left of the content. */
  function ParsePropertiesIf(present: bool, buf: seq<byte>, c: nat, end: nat): (p: Parsed<seq<Property>>)
    requires c <= |buf| && end <= |buf|
    ensures p.Success? ==> c <= p.value.1 <= |buf|
  {
    if present && c < end then ParseProperties(buf, c) else Success(([], c))
  }

  function ParseOptionalString(present: bool, buf: seq<byte>, c: nat): (p: Parsed<Option<seq<byte>>>)
    requires c <= |buf|
    ensures p.Success? ==> c <= p.value.1 <= |buf|
  {
    if !present then Success((None, c))
    else
      var (s, next) :- ParseString(buf, c);
      Success((Some(s), next))
  }

  function ParseWill(present: bool, qos: QoS, retain: bool, v5: bool, buf: seq<byte>, c: nat, end: nat)
    : (p: Parsed<Option<Will>>)
    requires c <= |buf| && end <= |buf|
    ensures p.Success? ==> c <= p.value.1 <= |buf|
  {
    if !present then Success((None, c))
    else
      var (props, c1) :- ParsePropertiesIf(v5, buf, c, end);
      var (topic, c2) :- ParseString(buf, c1);
      var (payload, c3) :- ParseBinary(buf, c2);
      Success((Some(Will(topic, payload, qos, retain, props)), c3))
  }

  /** Protocol level, flags and keep-alive, with the cursor behind them. */
  function ParseConnectHead(buf: seq<byte>, c: nat, end: nat): (p: Parsed<(byte, byte, u16)>)
    requires c <= |buf| && end <= |buf|
    ensures p.Success? ==> p.value.1 <= |buf|
  {
    var (name, c1) :- ParseString(buf, c);
    if c1 >= |buf| then Failure(IncompletePacket)
    else if name != PROTOCOL_NAME && name != OLD_PROTOCOL_NAME then Failure(MalformedPacket)
    else if c1 + 1 >= |buf| then Failure(IncompletePacket)
    else if c1 + 4 > end then Failure(IncompletePacket)
    else Success(((buf[c1], buf[c1 + 1], FromBigEndian16(buf[c1 + 2], buf[c1 + 3])), c1 + 4))
  }

  function DecodeConnect(buf: seq<byte>, v: Version): Decoded
    requires buf != []
  {
    var (end, start) :- Content(buf);
    var ((level, flags, keepAlive), c1) :- ParseConnectHead(buf, start, end);
    var v5 := v == V5 || level == 5;
    var (props, c2) :- ParsePropertiesIf(v5, buf, c1, end);
    var (clientId, c3) :- ParseString(buf, c2);
    var (will, c4) :- ParseWill(Bit(flags, 4), QoSFrom(flags / 8 % 4), Bit(flags, 32), v5, buf, c3, end);
    var (username, c5) :- ParseOptionalString(Bit(flags, 128), buf, c4);
    var (password, _) :- ParseOptionalString(Bit(flags, 64), buf, c5);
    Success(Connect(Bit(flags, 2), keepAlive, clientId, username, password, will, props))
  }

  function DecodeConnAck(buf: seq<byte>, v: Version): Decoded
    requires buf != []
  {
    var (end, c) :- Content(buf);
    if c + 2 > end then Failure(IncompletePacket)
    else
      var (props, _) :- ParsePropertiesIf(v == V5, buf, c + 2, end);
      Success(ConnAck(Bit(buf[c], 1), buf[c + 1], props))
  }

  function ParsePacketId(qos: QoS, buf: seq<byte>, c: nat, end: nat): (p: Parsed<Option<u16>>)
    requires c <= |buf| && end <= |buf|
    ensures p.Success? ==> c <= p.value.1 <= |buf|
  {
    if qos == AtMostOnce then Success((None, c))
    else if c + 2 > end then Failure(IncompletePacket)
    else Success((Some(FromBigEndian16(buf[c], buf[c + 1])), c + 2))
  }

  function DecodePublish(buf: seq<byte>, v: Version): Decoded
    requires buf != []
  {
    var qos := QoSFrom(buf[0] / 2 % 4);
    var (end, start) :- Content(buf);
    var (topic, c1) :- ParseString(buf, start);
    var (packetId, c2) :- ParsePacketId(qos, buf, c1, end);
    var (props, c3) :- ParsePropertiesIf(v == V5, buf, c2, end);
    if c3 > end then Failure(SliceOutOfRange)
    else Success(Publish(Bit(buf[0], 8), qos, Bit(buf[0], 1), topic, packetId, buf[c3..end], props))
  }

  /** Packet id, with the cursor behind it, and the content's end. */
  function ParseId(buf: seq<byte>): (r: Result<(u16, nat, nat), PacketError>)
    requires buf != []
    ensures r.Success? ==> 3 < r.value.1 <= r.value.2 <= |buf|
  {
    var (end, c) :- Content(buf);
    if c + 2 > end then Failure(IncompletePacket)
    else Success((FromBigEndian16(buf[c], buf[c + 1]), c + 2, end))
  }

  /** Reason code and properties, either of which may be missing. */
  function ParseReason(buf: seq<byte>, c: nat, end: nat, v: Version): (p: Parsed<(byte, seq<Property>)>)
    requires c <= end <= |buf|
  {
    if v == V5 && c < end then
      var (props, next) :- ParsePropertiesIf(true, buf, c + 1, end);
      Success(((buf[c], props), next))
    else Success(((0, []), c))
  }

  function DecodeAck(buf: seq<byte>, v: Version): Result<Ack, PacketError>
    requires buf != []
  {
    var (id, c, end) :- ParseId(buf);
    var ((reason, props), _) :- ParseReason(buf, c, end, v);
    Success(Ack(id, reason, props))
  }

  /** Filters up to the content's end behind those read so far. */
  function ParseFilters(buf: seq<byte>, c: nat, end: nat, sofar: seq<(seq<byte>, QoS)>)
    : Result<seq<(seq<byte>, QoS)>, PacketError>
    requires end <= |buf|
    decreases end - c
  {
    if c >= end then Success(sofar)
    else
      var (topic, next) :- ParseString(buf, c);
      if next >= |buf| then Failure(IncompletePacket)
      else if |sofar| >= MAX_BATCH then Failure(BatchCapacityExceeded)
      else ParseFilters(buf, next + 1, end, sofar + [(topic, QoSFrom(buf[next]))])
  }

  function ParseTopics(buf: seq<byte>, c: nat, end: nat, sofar: seq<seq<byte>>): Result<seq<seq<byte>>, PacketError>
    requires end <= |buf|
    decreases end - c
  {
    if c >= end then Success(sofar)
    else
      var (topic, next) :- ParseString(buf, c);
      if |sofar| >= MAX_BATCH then Failure(BatchCapacityExceeded)
      else ParseTopics(buf, next, end, sofar + [topic])
  }

  function ParseCodes(buf: seq<byte>, c: nat, end: nat, sofar: seq<byte>): Result<seq<byte>, PacketError>
    requires end <= |buf|
    decreases end - c
  {
    if c >= end then Success(sofar)
    else if |sofar| >= MAX_BATCH then Failure(BatchCapacityExceeded)
    else ParseCodes(buf, c + 1, end, sofar + [buf[c]])
  }

  function DecodeSubscribe(buf: seq<byte>, v: Version): Decoded
    requires buf != []
  {
    var (id, c1, end) :- ParseId(buf);
    var (props, c2) :- ParsePropertiesIf(v == V5, buf, c1, end);
    var filters :- ParseFilters(buf, c2, end, []);
    Success(Subscribe(id, filters, props))
  }

  function DecodeUnsubscribe(buf: seq<byte>, v: Version): Decoded
    requires buf != []
  {
    var (id, c1, end) :- ParseId(buf);
    var (props, c2) :- ParsePropertiesIf(v == V5, buf, c1, end);
    var topics :- ParseTopics(buf, c2, end, []);
    Success(Unsubscribe(id, topics, props))
  }

  /** SUBACK and UNSUBACK. */
  function DecodeCodes(buf: seq<byte>, v: Version): Result<(u16, seq<byte>, seq<Property>), PacketError>
    requires buf != []
  {
    var (id, c1, end) :- ParseId(buf);
    var (props, c2) :- ParsePropertiesIf(v == V5, buf, c1, end);
    var codes :- ParseCodes(buf, c2, end, []);
    Success((id, codes, props))
  }

  function DecodeDisconnect(buf: seq<byte>, v: Version): Decoded
    requires buf != []
  {
    if |buf| == 1 then Success(Disconnect(0, []))
    else
      var (end, c) :- Content(buf);
      var ((reason, props), _) :- ParseReason(buf, c, end, v);
      Success(Disconnect(reason, props))
  }

  function DecodePacket(buf: seq<byte>, v: Version): Decoded
    requires buf != []
  {
    match buf[0] / 16
    case 1 => DecodeConnect(buf, v)
    case 2 => DecodeConnAck(buf, v)
    case 3 => DecodePublish(buf, v)
    case 4 => var a :- DecodeAck(buf, v); Success(PubAck(a))
    case 5 => var a :- DecodeAck(buf, v); Success(PubRec(a))
    case 6 => var a :- DecodeAck(buf, v); Success(PubRel(a))
    case 7 => var a :- DecodeAck(buf, v); Success(PubComp(a))
    case 8 => DecodeSubscribe(buf, v)
    case 9 => var (id, codes, props) :- DecodeCodes(buf, v); Success(SubAck(id, codes, props))
    case 10 => DecodeUnsubscribe(buf, v)
    case 11 => var (id, codes, props) :- DecodeCodes(buf, v); Success(UnsubAck(id, codes, props))
    case 12 => Success(PingReq)
    case 13 => Success(PingResp)
    case 14 => DecodeDisconnect(buf, v)
    case _ => Failure(InvalidPacketType(buf[0] / 16))
  }

  function Decode(buf: seq<byte>, v: Version): Result<Option<Packet>, PacketError> {
    if buf == [] then Success(None)
    else
      var p :- DecodePacket(buf, v);
      Success(Some(p))
  }

  lemma DecodeNothing(v: Version)
    ensures Decode([], v) == Success(None)
  {
  }

  // ---- The decoders of the source ----

  /** The lines that open every decoder: remaining length, content end, completeness. */
  method ReadContent(buf: seq<byte>) returns (r: Result<(nat, nat), PacketError>)
    requires buf != []
    ensures r == Content(buf)
  {
    var field :- VarInt.ReadVariableByteInteger(1, buf);
    var (remaining, cursor) := field;
    var contentEnd := cursor + remaining;
    if contentEnd > |buf| {
      return Failure(IncompletePacket);
    }
    return Success((contentEnd, cursor));
  }

  method ReadPropertiesIf(present: bool, buf: seq<byte>, cursor: nat, contentEnd: nat)
    returns (r: Parsed<seq<Property>>)
    requires cursor <= |buf| && contentEnd <= |buf|
    ensures r == ParsePropertiesIf(present, buf, cursor, contentEnd)
  {
    if present && cursor < contentEnd {
      r := ReadProperties(cursor, buf);
    } else {
      r := Success(([], cursor));
    }
  }

  method ReadOptionalString(present: bool, buf: seq<byte>, cursor: nat) returns (r: Parsed<Option<seq<byte>>>)
    requires cursor <= |buf|
    ensures r == ParseOptionalString(present, buf, cursor)
  {
    if !present {
      return Success((None, cursor));
    }
    hide ParseString;
    var text :- ReadUtf8String(cursor, buf);
    return Success((Some(text.0), text.1));
  }

  method ReadWill(present: bool, qos: QoS, retain: bool, v5: bool, buf: seq<byte>, start: nat, contentEnd: nat)
    returns (r: Parsed<Option<Will>>)
    requires start <= |buf| && contentEnd <= |buf|
    ensures r == ParseWill(present, qos, retain, v5, buf, start, contentEnd)
  {
    hide ParsePropertiesIf, ParseString, ParseBinary;
    if !present {
      return Success((None, start));
    }
    var props :- ReadPropertiesIf(v5, buf, start, contentEnd);
    var topic :- ReadUtf8String(props.1, buf);
    var payload :- ReadBinaryData(topic.1, buf);
    return Success((Some(Will(topic.0, payload.0, qos, retain, props.0)), payload.1));
  }

  method ReadConnectHead(buf: seq<byte>, start: nat, contentEnd: nat) returns (r: Parsed<(byte, byte, u16)>)
    requires start <= |buf| && contentEnd <= |buf|
    ensures r == ParseConnectHead(buf, start, contentEnd)
  {
    hide ParseString;
    var name :- ReadUtf8String(start, buf);
    var cursor := name.1;
    if cursor >= |buf| {
      return Failure(IncompletePacket);
    }
    var level := buf[cursor];
    cursor := cursor + 1;
    if name.0 != PROTOCOL_NAME && name.0 != OLD_PROTOCOL_NAME {
      return Failure(MalformedPacket);
    }
    if cursor >= |buf| {
      return Failure(IncompletePacket);
    }
    var flags := buf[cursor];
    cursor := cursor + 1;
    if cursor + 2 > contentEnd {
      return Failure(IncompletePacket);
    }
    var keepAlive := FromBigEndian16(buf[cursor], buf[cursor + 1]);
    return Success(((level, flags, keepAlive), cursor + 2));
  }

  method ReadConnect(buf: seq<byte>, v: Version) returns (r: Decoded)
    requires buf != []
    ensures r == DecodeConnect(buf, v)
  {
    hide Content, ParseConnectHead, ParsePropertiesIf, ParseString, ParseWill, ParseOptionalString, Bit, QoSFrom;
    var content :- ReadContent(buf);
    var contentEnd := content.0;
    var head :- ReadConnectHead(buf, content.1, contentEnd);
    var (level, flags, keepAlive) := head.0;
    var v5 := v == V5 || level == 5;
    var props :- ReadPropertiesIf(v5, buf, head.1, contentEnd);
    var clientId :- ReadUtf8String(props.1, buf);
    var will :- ReadWill(Bit(flags, 4), QoSFrom(flags / 8 % 4), Bit(flags, 32), v5, buf, clientId.1, contentEnd);
    var username :- ReadOptionalString(Bit(flags, 128), buf, will.1);
    var password :- ReadOptionalString(Bit(flags, 64), buf, username.1);
    return Success(Connect(Bit(flags, 2), keepAlive, clientId.0, username.0, password.0, will.0, props.0));
  }

  method ReadConnAck(buf: seq<byte>, v: Version) returns (r: Decoded)
    requires buf != []
    ensures r == DecodeConnAck(buf, v)
  {
    hide Content, ParsePropertiesIf;
    var content :- ReadContent(buf);
    var (contentEnd, cursor) := content;
    if cursor + 2 > contentEnd {
      return Failure(IncompletePacket);
    }
    var sessionPresent, reasonCode := Bit(buf[cursor], 1), buf[cursor + 1];
    var props :- ReadPropertiesIf(v == V5, buf, cursor + 2, contentEnd);
    return Success(ConnAck(sessionPresent, reasonCode, props.0));
  }

  method ReadPublish(buf: seq<byte>, v: Version) returns (r: Decoded)
    requires buf != []
    ensures r == DecodePublish(buf, v)
  {
    hide Content, ParsePropertiesIf, ParseString;
    var header := buf[0];
    var dup, qos, retain := Bit(header, 8), QoSFrom(header / 2 % 4), Bit(header, 1);
    hide Bit, QoSFrom;
    var content :- ReadContent(buf);
    var contentEnd := content.0;
    var topic :- ReadUtf8String(content.1, buf);
    var cursor, packetId := topic.1, None;
    if qos != AtMostOnce {
      if cursor + 2 > contentEnd {
        return Failure(IncompletePacket);
      }
      packetId := Some(FromBigEndian16(buf[cursor], buf[cursor + 1]));
      cursor := cursor + 2;
    }
    assert ParsePacketId(qos, buf, topic.1, contentEnd) == Success((packetId, cursor));
    hide ParsePacketId;
    var props :- ReadPropertiesIf(v == V5, buf, cursor, contentEnd);
    if props.1 > contentEnd {
      return Failure(SliceOutOfRange);
    }
    return Success(Publish(dup, qos, retain, topic.0, packetId, buf[props.1..contentEnd], props.0));
  }

  method ReadId(buf: seq<byte>) returns (r: Result<(u16, nat, nat), PacketError>)
    requires buf != []
    ensures r == ParseId(buf)
  {
    hide Content;
    var content :- ReadContent(buf);
    var (contentEnd, cursor) := content;
    if cursor + 2 > contentEnd {
      return Failure(IncompletePacket);
    }
    return Success((FromBigEndian16(buf[cursor], buf[cursor + 1]), cursor + 2, contentEnd));
  }

  method ReadReason(buf: seq<byte>, start: nat, contentEnd: nat, v: Version) returns (r: Parsed<(byte, seq<Property>)>)
    requires start <= contentEnd <= |buf|
    ensures r == ParseReason(buf, start, contentEnd, v)
  {
    hide ParseProperties;
    var reason: byte, properties: seq<Property>, cursor := 0, [], start;
    if v == V5 && cursor < contentEnd {
      reason := buf[cursor];
      cursor := cursor + 1;
      if cursor < contentEnd {
        var props :- ReadProperties(cursor, buf);
        properties, cursor := props.0, props.1;
      }
    }
    return Success(((reason, properties), cursor));
  }

  method ReadAck(buf: seq<byte>, v: Version) returns (r: Result<Ack, PacketError>)
    requires buf != []
    ensures r == DecodeAck(buf, v)
  {
    hide ParseId, ParseReason;
    var id :- ReadId(buf);
    var reason :- ReadReason(buf, id.1, id.2, v);
    return Success(Ack(id.0, reason.0.0, reason.0.1));
  }

  method ReadSubscribe(buf: seq<byte>, v: Version) returns (r: Decoded)
    requires buf != []
    ensures r == DecodeSubscribe(buf, v)
  {
    hide ParseId, ParsePropertiesIf, ParseString, QoSFrom;
    var id :- ReadId(buf);
    var contentEnd := id.2;
    var props :- ReadPropertiesIf(v == V5, buf, id.1, contentEnd);
    var topics: seq<(seq<byte>, QoS)>, cursor: nat := [], props.1;
    while cursor < contentEnd
      invariant ParseFilters(buf, props.1, contentEnd, []) == ParseFilters(buf, cursor, contentEnd, topics)
      decreases contentEnd - cursor
    {
      var topic :- ReadUtf8String(cursor, buf);
      cursor := topic.1;
      if cursor >= |buf| {
        return Failure(IncompletePacket);
      }
      var qos := QoSFrom(buf[cursor]);
      cursor := cursor + 1;
      if |topics| >= MAX_BATCH {
        return Failure(BatchCapacityExceeded);
      }
      topics := topics + [(topic.0, qos)];
    }
    return Success(Subscribe(id.0, topics, props.0));
  }

  method ReadUnsubscribe(buf: seq<byte>, v: Version) returns (r: Decoded)
    requires buf != []
    ensures r == DecodeUnsubscribe(buf, v)
  {
    hide ParseId, ParsePropertiesIf, ParseString;
    var id :- ReadId(buf);
    var contentEnd := id.2;
    var props :- ReadPropertiesIf(v == V5, buf, id.1, contentEnd);
    var topics: seq<seq<byte>>, cursor: nat := [], props.1;
    while cursor < contentEnd
      invariant ParseTopics(buf, props.1, contentEnd, []) == ParseTopics(buf, cursor, contentEnd, topics)
      decreases contentEnd - cursor
    {
      var topic :- ReadUtf8String(cursor, buf);
      if |topics| >= MAX_BATCH {
        return Failure(BatchCapacityExceeded);
      }
      topics, cursor := topics + [topic.0], topic.1;
    }
    return Success(Unsubscribe(id.0, topics, props.0));
  }

  method ReadCodes(buf: seq<byte>, v: Version) returns (r: Result<(u16, seq<byte>, seq<Property>), PacketError>)
    requires buf != []
    ensures r == DecodeCodes(buf, v)
  {
    hide ParseId, ParsePropertiesIf;
    var id :- ReadId(buf);
    var contentEnd := id.2;
    var props :- ReadPropertiesIf(v == V5, buf, id.1, contentEnd);
    var codes: seq<byte>, cursor: nat := [], props.1;
    while cursor < contentEnd
      invariant ParseCodes(buf, props.1, contentEnd, []) == ParseCodes(buf, cursor, contentEnd, codes)
    {
      if |codes| >= MAX_BATCH {
        return Failure(BatchCapacityExceeded);
      }
      codes, cursor := codes + [buf[cursor]], cursor + 1;
    }
    return Success((id.0, codes, props.0));
  }

  method ReadDisconnect(buf: seq<byte>, v: Version) returns (r: Decoded)
    requires buf != []
    ensures r == DecodeDisconnect(buf, v)
  {
    hide Content, ParseReason;
    if |buf| == 1 {
      return Success(Disconnect(0, []));
    }
    var content :- ReadContent(buf);
    var reason :- ReadReason(buf, content.1, content.0, v);
    return Success(Disconnect(reason.0.0, reason.0.1));
  }

  /** `decode`. */
  method ReadPacket(buf: seq<byte>, v: Version) returns (r: Result<Option<Packet>, PacketError>)
    ensures r == Decode(buf, v)
  {
    hide DecodeConnect, DecodeConnAck, DecodePublish, DecodeAck, DecodeSubscribe, DecodeCodes, DecodeUnsubscribe,
      DecodeDisconnect;
    if buf == [] {
      return Success(None);
    }
    var p: Packet;
    match buf[0] / 16 {
      case 1 => p :- ReadConnect(buf, v);
      case 2 => p :- ReadConnAck(buf, v);
      case 3 => p :- ReadPublish(buf, v);
      case 4 => var a :- ReadAck(buf, v); p := PubAck(a);
      case 5 => var a :- ReadAck(buf, v); p := PubRec(a);
      case 6 => var a :- ReadAck(buf, v); p := PubRel(a);
      case 7 => var a :- ReadAck(buf, v); p := PubComp(a);
      case 8 => p :- ReadSubscribe(buf, v);
      case 9 => var c :- ReadCodes(buf, v); p := SubAck(c.0, c.1, c.2);
      case 10 => p :- ReadUnsubscribe(buf, v);
      case 11 => var c :- ReadCodes(buf, v); p := UnsubAck(c.0, c.1, c.2);
      case 12 => p := PingReq;
      case 13 => p := PingResp;
      case 14 => p :- ReadDisconnect(buf, v);
      case _ => return Failure(InvalidPacketType(buf[0] / 16));
    }
    return Success(Some(p));
  }
}
