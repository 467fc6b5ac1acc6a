/**
 Decoding inverts encoding: for every packet kind, both protocol versions, and whatever follows the frame.
 */
module RoundTrip {
  import opened Wrappers
  import opened Bytes
  import opened PacketErrors
  import opened Fields
  import opened Properties
  import opened Packets
  import opened Decoder
  import VarInt

  /** The frame of `body` lies at the start of `buf`, and its content from index `start` to `end`. */
  ghost predicate Framed(buf: seq<byte>, first: byte, body: seq<byte>, start: nat, end: nat) {
    && buf != [] && buf[0] == first
    && At(buf, start, body) && end == start + |body| && 1 < start
    && Content(buf) == Success((end, start))
  }

  lemma ContentOfFrame(buf: seq<byte>, first: byte, body: seq<byte>)
    requires At(buf, 0, Frame(first, body)) && |body| <= VarInt.MAX_VARINT
    ensures var start := 1 + |VarInt.Encoding(|body|)|; Framed(buf, first, body, start, start + |body|)
  {
    hide *;
    var prefix := VarInt.Encoding(|body|);
    FrameIs(first, body);
    AtSplit(buf, 0, [first] + prefix, body);
    AtSplit(buf, 0, [first], prefix);
    ParseInvertsVarInt(buf, 1, |body|);
    LengthIsContent(buf, first, body, 1 + |prefix|);
  }

  lemma LengthIsContent(buf: seq<byte>, first: byte, body: seq<byte>, start: nat)
    requires At(buf, 0, [first]) && At(buf, start, body) && 1 < start
    requires buf != [] && ParseVarInt(buf, 1) == Success((|body|, start))
    ensures Framed(buf, first, body, start, start + |body|)
  {
    hide ParseVarInt;
    ByteBack(buf, 0, first);
  }

  lemma PropertyFieldBack(ps: seq<Property>, v: Version, buf: seq<byte>, c: nat, end: nat)
    requires Carries(ps, v) && |PropertyField(ps, v)| <= VarInt.MAX_VARINT
    requires At(buf, c, PropertyField(ps, v)) && c + |PropertyField(ps, v)| <= end <= |buf|
    ensures ParsePropertiesIf(v == V5, buf, c, end) == Success((ps, c + |PropertyField(ps, v)|))
  {
    hide *;
    if v == V5 {
      FieldIsBlock(ps, v);
      PropertiesPresent(buf, c, end);
      ParseInvertsBlock(ps, buf, c);
    } else {
      FieldIsAbsent(ps, v, buf, c, end);
    }
  }

  lemma FieldIsAbsent(ps: seq<Property>, v: Version, buf: seq<byte>, c: nat, end: nat)
    requires v != V5 && Carries(ps, v) && c <= end <= |buf|
    ensures PropertyField(ps, v) == [] && ParsePropertiesIf(v == V5, buf, c, end) == Success((ps, c))
  {
    hide ParseProperties, Shaped, Block;
  }

  lemma FieldIsBlock(ps: seq<Property>, v: Version)
    requires v == V5 && Carries(ps, v)
    ensures PropertyField(ps, v) == Block(ps) && |Block(ps)| > 0 && |PropertyBytes(ps)| <= |Block(ps)| && WellFormed(ps)
  {
  }

  lemma PropertiesPresent(buf: seq<byte>, c: nat, end: nat)
    requires c < end <= |buf|
    ensures ParsePropertiesIf(true, buf, c, end) == ParseProperties(buf, c)
  {
    hide ParseProperties;
  }

  lemma WordBack(buf: seq<byte>, c: nat, n: u16)
    requires At(buf, c, BigEndian16(n))
    ensures FromBigEndian16(buf[c], buf[c + 1]) == n
  {
    ReadsWord(buf, c, n);
  }

  lemma ByteBack(buf: seq<byte>, c: nat, b: byte)
    requires At(buf, c, [b])
    ensures buf[c] == b
  {
    assert buf[c] == buf[c..c + 1][0];
  }

  // ---- PUBLISH ----

  lemma PublishBack(p: Packet, v: Version, buf: seq<byte>, start: nat, end: nat)
    requires p.Publish? && Carried(p, v) && Sendable(p, v)
    requires Framed(buf, FirstByte(p), Body(p, v), start, end)
    ensures DecodePublish(buf, v) == Success(p)
  {
    hide *;
    var topic, id, props := Prefixed(p.topic), PacketIdBytes(p.qos, p.packetId), PropertyField(p.properties, v);
    var c1 := start + |topic|;
    PublishParts(p, v, buf, start, end);
    TextBack(p.topic, buf, start);
    PacketIdBack(p.qos, p.packetId, buf, c1, end);
    PropertyFieldBack(p.properties, v, buf, c1 + |id|, end);
    PublishFolds(p, v, buf, start, end, c1, c1 + |id|, c1 + |id| + |props|);
    AtMeans(buf, c1 + |id| + |props|, p.payload);
  }

  /** Where the parts of a PUBLISH lie. */
  lemma PublishParts(p: Packet, v: Version, buf: seq<byte>, start: nat, end: nat)
    requires p.Publish? && Carried(p, v) && Sendable(p, v)
    requires Framed(buf, FirstByte(p), Body(p, v), start, end)
    ensures var topic, id, props := Prefixed(p.topic), PacketIdBytes(p.qos, p.packetId), PropertyField(p.properties, v);
            var c1 := start + |topic|;
            && At(buf, start, topic) && At(buf, c1, id) && At(buf, c1 + |id|, props)
            && At(buf, c1 + |id| + |props|, p.payload)
            && c1 + |id| + |props| + |p.payload| == end && |props| <= VarInt.MAX_VARINT && end <= |buf|
    ensures Text(p.topic) && (p.packetId.Some? <==> p.qos != AtMostOnce) && Carries(p.properties, v)
    ensures buf != [] && buf[0] == FirstByte(p) && Content(buf) == Success((end, start))
  {
    hide *;
    var topic, id, props := Prefixed(p.topic), PacketIdBytes(p.qos, p.packetId), PropertyField(p.properties, v);
    UnfoldFramed(buf, FirstByte(p), Body(p, v), start, end);
    UnfoldPublish(p, v);
    AtSplit(buf, start, topic + id + props, p.payload);
    AtSplit(buf, start, topic + id, props);
    AtSplit(buf, start, topic, id);
  }

  lemma UnfoldPublish(p: Packet, v: Version)
    requires p.Publish? && Carried(p, v) && Sendable(p, v)
    ensures Body(p, v)
         == Prefixed(p.topic) + PacketIdBytes(p.qos, p.packetId) + PropertyField(p.properties, v) + p.payload
    ensures |Body(p, v)| <= VarInt.MAX_VARINT
    ensures Text(p.topic) && (p.packetId.Some? <==> p.qos != AtMostOnce) && Carries(p.properties, v)
  {
    hide Prefixed, PacketIdBytes, PropertyField, Text, Carries;
  }

  lemma UnfoldFramed(buf: seq<byte>, first: byte, body: seq<byte>, start: nat, end: nat)
    requires Framed(buf, first, body, start, end)
    ensures buf != [] && buf[0] == first && Content(buf) == Success((end, start))
    ensures At(buf, start, body) && end == start + |body| && end <= |buf|
  {
    hide Content;
  }

  lemma AtMeans(buf: seq<byte>, c: nat, x: seq<byte>)
    requires At(buf, c, x)
    ensures c + |x| <= |buf| && buf[c..c + |x|] == x
  {
  }

  lemma PublishFolds(p: Packet, v: Version, buf: seq<byte>, start: nat, end: nat, c1: nat, c2: nat, c3: nat)
    requires p.Publish? && buf != [] && Content(buf) == Success((end, start))
    requires ParseString(buf, start) == Success((p.topic, c1))
    requires ParsePacketId(p.qos, buf, c1, end) == Success((p.packetId, c2))
    requires ParsePropertiesIf(v == V5, buf, c2, end) == Success((p.properties, c3)) && c3 <= end
    requires buf[0] == FirstByte(p)
    ensures DecodePublish(buf, v) == Success(p.(payload := buf[c3..end]))
  {
    PublishFlagsBack(p);
    hide FirstByte, Content, ParseString, ParsePacketId, ParsePropertiesIf, Bit, QoSFrom;
  }

  lemma PublishFlagsBack(p: Packet)
    requires p.Publish?
    ensures var b := FirstByte(p);
            b / 16 == 3 && Bit(b, 8) == p.dup && QoSFrom(b / 2 % 4) == p.qos && Bit(b, 1) == p.retain
  {
  }

  lemma PacketIdBack(qos: QoS, id: Option<u16>, buf: seq<byte>, c: nat, end: nat)
    requires id.Some? <==> qos != AtMostOnce
    requires At(buf, c, PacketIdBytes(qos, id)) && c + |PacketIdBytes(qos, id)| <= end <= |buf|
    ensures ParsePacketId(qos, buf, c, end) == Success((id, c + |PacketIdBytes(qos, id)|))
  {
    if qos != AtMostOnce {
      ReadsWord(buf, c, id.value);
    }
  }

  // ---- CONNACK, acknowledgements, DISCONNECT ----

  lemma ConnAckBack(p: Packet, v: Version, buf: seq<byte>, start: nat, end: nat)
    requires p.ConnAck? && Carried(p, v) && Sendable(p, v)
    requires Framed(buf, FirstByte(p), Body(p, v), start, end)
    ensures DecodeConnAck(buf, v) == Success(p)
  {
    hide *;
    UnfoldConnAck(p, v);
    var flags: seq<byte>, props := [Weight(p.sessionPresent, 1)], PropertyField(p.properties, v);
    UnfoldFramed(buf, FirstByte(p), Body(p, v), start, end);
    AtSplit(buf, start, flags + [p.reasonCode], props);
    AtSplit(buf, start, flags, [p.reasonCode]);
    PropertyFieldBack(p.properties, v, buf, start + 2, end);
    ConnAckFolds(p, v, buf, start, end);
  }

  lemma UnfoldConnAck(p: Packet, v: Version)
    requires p.ConnAck? && Carried(p, v) && Sendable(p, v)
    ensures Body(p, v) == [Weight(p.sessionPresent, 1)] + [p.reasonCode] + PropertyField(p.properties, v)
    ensures Carries(p.properties, v) && |Body(p, v)| <= VarInt.MAX_VARINT && Weight(p.sessionPresent, 1) <= 1
  {
    hide PropertyField;
  }

  lemma ConnAckFolds(p: Packet, v: Version, buf: seq<byte>, start: nat, end: nat)
    requires p.ConnAck? && buf != [] && Content(buf) == Success((end, start))
    requires start + 2 <= end <= |buf|
    requires At(buf, start, [Weight(p.sessionPresent, 1)]) && At(buf, start + 1, [p.reasonCode])
    requires ParsePropertiesIf(v == V5, buf, start + 2, end) == Success((p.properties, end))
    ensures DecodeConnAck(buf, v) == Success(p)
  {
    hide Content, ParsePropertiesIf, At;
    ByteBack(buf, start, Weight(p.sessionPresent, 1));
    ByteBack(buf, start + 1, p.reasonCode);
  }

  lemma ReasonBack(reason: byte, ps: seq<Property>, v: Version, buf: seq<byte>, c: nat, end: nat)
    requires Carries(ps, v) && (v != V5 ==> reason == 0)
    requires At(buf, c, ReasonBytes(reason, ps, v)) && c + |ReasonBytes(reason, ps, v)| == end <= |buf|
    requires |ReasonBytes(reason, ps, v)| <= VarInt.MAX_VARINT
    ensures ParseReason(buf, c, end, v) == Success(((reason, ps), end))
  {
    hide ParsePropertiesIf, Block;
    if ReasonBytes(reason, ps, v) != [] {
      AtSplit(buf, c, [reason], Block(ps));
      ByteBack(buf, c, reason);
      PropertyFieldBack(ps, V5, buf, c + 1, end);
    }
  }

  lemma AckBack(a: Ack, first: byte, v: Version, buf: seq<byte>, start: nat, end: nat)
    requires AckCarried(a, v) && |AckBytes(a, v)| <= VarInt.MAX_VARINT
    requires Framed(buf, first, AckBytes(a, v), start, end)
    ensures DecodeAck(buf, v) == Success(a)
  {
    hide Content, ReasonBytes, ParseReason;
    AtSplit(buf, start, BigEndian16(a.packetId), ReasonBytes(a.reasonCode, a.properties, v));
    WordBack(buf, start, a.packetId);
    ReasonBack(a.reasonCode, a.properties, v, buf, start + 2, end);
  }

  lemma DisconnectBack(p: Packet, v: Version, buf: seq<byte>, start: nat, end: nat)
    requires p.Disconnect? && Carried(p, v) && Sendable(p, v)
    requires Framed(buf, FirstByte(p), Body(p, v), start, end)
    ensures DecodeDisconnect(buf, v) == Success(p)
  {
    hide Content, ReasonBytes, ParseReason;
    ReasonBack(p.disconnectReason, p.properties, v, buf, start, end);
  }

  // ---- SUBSCRIBE, SUBACK, UNSUBSCRIBE, UNSUBACK ----

  /** Packet id and properties open these bodies; what follows lies behind them. */
  lemma IdAndPropertiesBack(id: u16, ps: seq<Property>, more: seq<byte>, first: byte, v: Version,
                            buf: seq<byte>, start: nat, end: nat)
    requires Carries(ps, v) && |PropertyField(ps, v)| <= VarInt.MAX_VARINT
    requires Framed(buf, first, BigEndian16(id) + PropertyField(ps, v) + more, start, end)
    ensures var c := start + 2 + |PropertyField(ps, v)|;
            && ParseId(buf) == Success((id, start + 2, end))
            && ParsePropertiesIf(v == V5, buf, start + 2, end) == Success((ps, c))
            && At(buf, c, more) && c + |more| == end
  {
    hide Content, ParsePropertiesIf, PropertyField;
    AtSplit(buf, start, BigEndian16(id) + PropertyField(ps, v), more);
    AtSplit(buf, start, BigEndian16(id), PropertyField(ps, v));
    WordBack(buf, start, id);
    PropertyFieldBack(ps, v, buf, start + 2, end);
  }

  lemma FilterBack(topic: seq<byte>, qos: QoS, more: seq<byte>, buf: seq<byte>, c: nat)
    requires Text(topic) && At(buf, c, Prefixed(topic) + [QoSBits(qos)] + more)
    ensures var next := c + 2 + |topic|;
            ParseString(buf, c) == Success((topic, next)) && QoSFrom(buf[next]) == qos && At(buf, next + 1, more)
  {
    hide ParseString, Prefixed, ValidUtf8, At, QoSBits;
    AtSplit(buf, c, Prefixed(topic) + [QoSBits(qos)], more);
    AtSplit(buf, c, Prefixed(topic), [QoSBits(qos)]);
    ParseInvertsString(buf, c, topic);
    ByteBack(buf, c + 2 + |topic|, QoSBits(qos));
  }

  lemma {:induction false} FiltersBack(filters: seq<(seq<byte>, QoS)>, buf: seq<byte>, c: nat, end: nat,
                                       sofar: seq<(seq<byte>, QoS)>)
    requires |sofar| + |filters| <= MAX_BATCH && forall f :: f in filters ==> Text(f.0)
    requires At(buf, c, FilterBytes(filters)) && c + |FilterBytes(filters)| == end <= |buf|
    ensures ParseFilters(buf, c, end, sofar) == Success(sofar + filters)
  {
    hide ParseString, Prefixed, Text, At, QoSBits, QoSFrom;
    if filters == [] {
      assert sofar + filters == sofar;
    } else {
      var f, later := filters[0], FilterBytes(filters[1..]);
      FilterBack(f.0, f.1, later, buf, c);
      FiltersBack(filters[1..], buf, c + 3 + |f.0|, end, sofar + [f]);
      assert f == (f.0, f.1);
      assert sofar + [f] + filters[1..] == sofar + filters;
    }
  }

  lemma TopicBack(topics: seq<seq<byte>>, buf: seq<byte>, c: nat, end: nat, sofar: seq<seq<byte>>)
    requires topics != [] && |sofar| < MAX_BATCH && Text(topics[0])
    requires At(buf, c, TopicBytes(topics)) && c + |TopicBytes(topics)| == end
    ensures var next := c + 2 + |topics[0]|;
            && At(buf, next, TopicBytes(topics[1..])) && next + |TopicBytes(topics[1..])| == end
            && ParseTopics(buf, c, end, sofar) == ParseTopics(buf, next, end, sofar + [topics[0]])
  {
    hide ParseString, Prefixed, ValidUtf8, At;
    AtSplit(buf, c, Prefixed(topics[0]), TopicBytes(topics[1..]));
    ParseInvertsString(buf, c, topics[0]);
    PrefixedLength(topics[0]);
  }

  lemma PrefixedLength(s: seq<byte>)
    requires |s| <= 0xFFFF
    ensures |Prefixed(s)| == 2 + |s|
  {
  }

  lemma {:induction false} TopicsBack(topics: seq<seq<byte>>, buf: seq<byte>, c: nat, end: nat, sofar: seq<seq<byte>>)
    requires |sofar| + |topics| <= MAX_BATCH && forall i :: 0 <= i < |topics| ==> Text(topics[i])
    requires At(buf, c, TopicBytes(topics)) && c + |TopicBytes(topics)| == end
    ensures ParseTopics(buf, c, end, sofar) == Success(sofar + topics)
  {
    hide *;
    if topics == [] {
      TopicsEnd(buf, c, end, sofar);
      assert sofar + topics == sofar;
    } else {
      TopicBack(topics, buf, c, end, sofar);
      HeadMoves(sofar, topics);
      TopicsBack(topics[1..], buf, c + 2 + |topics[0]|, end, sofar + [topics[0]]);
    }
  }

  lemma TopicsEnd(buf: seq<byte>, c: nat, end: nat, sofar: seq<seq<byte>>)
    requires At(buf, c, TopicBytes([])) && c + |TopicBytes([])| == end
    ensures ParseTopics(buf, c, end, sofar) == Success(sofar)
  {
  }

  lemma {:induction false} CodesBack(codes: seq<byte>, buf: seq<byte>, c: nat, end: nat, sofar: seq<byte>)
    requires |sofar| + |codes| <= MAX_BATCH
    requires At(buf, c, codes) && c + |codes| == end
    ensures ParseCodes(buf, c, end, sofar) == Success(sofar + codes)
  {
    if codes == [] {
      assert sofar + codes == sofar;
    } else {
      assert codes == [codes[0]] + codes[1..];
      AtSplit(buf, c, [codes[0]], codes[1..]);
      ByteBack(buf, c, codes[0]);
      CodesBack(codes[1..], buf, c + 1, end, sofar + [codes[0]]);
      assert sofar + [codes[0]] + codes[1..] == sofar + codes;
    }
  }

  lemma SubscribeBack(p: Packet, v: Version, buf: seq<byte>, start: nat, end: nat)
    requires p.Subscribe? && Carried(p, v) && Sendable(p, v)
    requires Framed(buf, FirstByte(p), Body(p, v), start, end)
    ensures DecodeSubscribe(buf, v) == Success(p)
  {
    hide ParseId, ParsePropertiesIf, PropertyField, FilterBytes, ParseFilters, Text, Shaped, At, Content, Framed;
    IdAndPropertiesBack(p.subscribeId, p.properties, FilterBytes(p.filters), FirstByte(p), v, buf, start, end);
    FiltersBack(p.filters, buf, start + 2 + |PropertyField(p.properties, v)|, end, []);
    assert [] + p.filters == p.filters;
  }

  lemma UnsubscribeBack(p: Packet, v: Version, buf: seq<byte>, start: nat, end: nat)
    requires p.Unsubscribe? && Carried(p, v) && Sendable(p, v)
    requires Framed(buf, FirstByte(p), Body(p, v), start, end)
    ensures DecodeUnsubscribe(buf, v) == Success(p)
  {
    hide ParseId, ParsePropertiesIf, PropertyField, TopicBytes, ParseTopics, Text, Shaped, At, Content, Framed;
    IdAndPropertiesBack(p.unsubscribeId, p.properties, TopicBytes(p.topics), FirstByte(p), v, buf, start, end);
    TopicsBack(p.topics, buf, start + 2 + |PropertyField(p.properties, v)|, end, []);
    assert [] + p.topics == p.topics;
  }

  lemma CodesPacketBack(p: Packet, v: Version, buf: seq<byte>, start: nat, end: nat)
    requires (p.SubAck? || p.UnsubAck?) && Carried(p, v) && Sendable(p, v)
    requires Framed(buf, FirstByte(p), Body(p, v), start, end)
    ensures DecodeCodes(buf, v) == Success((p.ackedId, p.reasonCodes, p.properties))
  {
    hide ParseId, ParsePropertiesIf, PropertyField, ParseCodes, Shaped, At, Content, Framed;
    IdAndPropertiesBack(p.ackedId, p.properties, p.reasonCodes, FirstByte(p), v, buf, start, end);
    CodesBack(p.reasonCodes, buf, start + 2 + |PropertyField(p.properties, v)|, end, []);
    assert [] + p.reasonCodes == p.reasonCodes;
  }

  // ---- CONNECT ----

  lemma ConnectFlagsBack(clean: bool, username: bool, password: bool, will: Option<Will>)
    ensures var b := ConnectFlags(clean, username, password, will);
            && Bit(b, 2) == clean && Bit(b, 4) == will.Some? && Bit(b, 64) == password && Bit(b, 128) == username
            && (will.Some? ==> QoSFrom(b / 8 % 4) == will.value.qos && Bit(b, 32) == will.value.retain)
  {
    var w, q, r := Weight(will.Some?, 1), if will.Some? then QoSBits(will.value.qos) else 0,
                   Weight(will.Some? && will.value.retain, 1);
    FlagBits(Weight(clean, 1), w, q, r, Weight(password, 1), Weight(username, 1));
  }

  lemma FlagBits(c: nat, w: nat, q: nat, r: nat, p: nat, u: nat)
    requires c <= 1 && w <= 1 && q <= 2 && r <= 1 && p <= 1 && u <= 1
    ensures var b := 2 * c + 4 * w + 8 * q + 32 * r + 64 * p + 128 * u;
            && b / 2 % 2 == c && b / 4 % 2 == w && b / 8 % 4 == q && b / 32 % 2 == r
            && b / 64 % 2 == p && b / 128 % 2 == u
  {
    var b := 2 * c + 4 * w + 8 * q + 32 * r + 64 * p + 128 * u;
    assert b / 2 == 2 * (w + 2 * q + 8 * r + 16 * p + 32 * u) + c;
    assert b / 4 == 2 * (q + 4 * r + 8 * p + 16 * u) + w;
    assert b / 8 == 4 * (r + 2 * p + 4 * u) + q;
    assert b / 32 == 2 * (p + 2 * u) + r;
    assert b / 64 == 2 * u + p;
    assert b / 128 == u;
  }

  lemma ConnectHeadBack(p: Packet, v: Version, buf: seq<byte>, c: nat, end: nat)
    requires p.Connect? && At(buf, c, ConnectHead(p, v)) && c + |ConnectHead(p, v)| <= end <= |buf|
    ensures |ConnectHead(p, v)| == 10
    ensures ParseConnectHead(buf, c, end)
         == var flags := ConnectFlags(p.cleanSession, p.username.Some?, p.password.Some?, p.will);
            Success(((LevelOf(v), flags, p.keepAlive), c + 10))
  {
    var flags := ConnectFlags(p.cleanSession, p.username.Some?, p.password.Some?, p.will);
    var name, level := Prefixed(PROTOCOL_NAME), [LevelOf(v)];
    NameIsText();
    hide ConnectFlags, ParseString, Prefixed, BigEndian16, ValidUtf8;
    AtSplit(buf, c, name + level + [flags], BigEndian16(p.keepAlive));
    AtSplit(buf, c, name + level, [flags]);
    AtSplit(buf, c, name, level);
    ParseInvertsString(buf, c, PROTOCOL_NAME);
    ByteBack(buf, c + 6, LevelOf(v));
    ByteBack(buf, c + 7, flags);
    WordBack(buf, c + 8, p.keepAlive);
  }

  lemma NameIsText()
    ensures Text(PROTOCOL_NAME)
  {
    assert ValidUtf8([0x54]);
    assert [0x54, 0x54][1..] == [0x54];
    assert ValidUtf8([0x54, 0x54]);
    assert [0x51, 0x54, 0x54][1..] == [0x54, 0x54];
    assert ValidUtf8([0x51, 0x54, 0x54]);
    assert PROTOCOL_NAME[1..] == [0x51, 0x54, 0x54];
  }

  lemma WillFieldsBack(w: Will, v: Version, buf: seq<byte>, c: nat, end: nat)
    requires WillCarried(w, v) && |PropertyField(w.properties, v)| <= VarInt.MAX_VARINT
    requires At(buf, c, PropertyField(w.properties, v) + Prefixed(w.topic) + Prefixed(w.payload))
    requires c + |PropertyField(w.properties, v)| + 4 + |w.topic| + |w.payload| <= end <= |buf|
    ensures var c1, c2 := c + |PropertyField(w.properties, v)|, c + |PropertyField(w.properties, v)| + 2 + |w.topic|;
            && ParsePropertiesIf(v == V5, buf, c, end) == Success((w.properties, c1))
            && ParseString(buf, c1) == Success((w.topic, c2))
            && ParseBinary(buf, c2) == Success((w.payload, c2 + 2 + |w.payload|))
  {
    hide ParsePropertiesIf, ParseString, ParseBinary, Prefixed, PropertyField, Text, Carries, At;
    var props, topic, payload := PropertyField(w.properties, v), Prefixed(w.topic), Prefixed(w.payload);
    AtSplit(buf, c, props + topic, payload);
    AtSplit(buf, c, props, topic);
    PropertyFieldBack(w.properties, v, buf, c, end);
    TextBack(w.topic, buf, c + |props|);
    ParseInvertsBinary(buf, c + |props| + |topic|, w.payload);
  }

  /** A will is read when its three fields are. */
  lemma WillFolds(w: Will, v5: bool, buf: seq<byte>, c: nat, end: nat, c1: nat, c2: nat, c3: nat)
    requires c <= |buf| && end <= |buf|
    requires ParsePropertiesIf(v5, buf, c, end) == Success((w.properties, c1))
    requires ParseString(buf, c1) == Success((w.topic, c2))
    requires ParseBinary(buf, c2) == Success((w.payload, c3))
    ensures ParseWill(true, w.qos, w.retain, v5, buf, c, end) == Success((Some(w), c3))
  {
    hide ParsePropertiesIf, ParseString, ParseBinary;
  }

  lemma WillBack(w: Will, v: Version, buf: seq<byte>, c: nat, end: nat)
    requires WillCarried(w, v) && |WillBytes(Some(w), v)| <= VarInt.MAX_VARINT
    requires At(buf, c, WillBytes(Some(w), v)) && c + |WillBytes(Some(w), v)| <= end <= |buf|
    ensures ParseWill(true, w.qos, w.retain, v == V5, buf, c, end) == Success((Some(w), c + |WillBytes(Some(w), v)|))
  {
    hide ParsePropertiesIf, ParseString, ParseBinary, ParseWill, Prefixed, PropertyField, WillCarried, At;
    WillFieldsBack(w, v, buf, c, end);
    var c1 := c + |PropertyField(w.properties, v)|;
    WillFolds(w, v == V5, buf, c, end, c1, c1 + 2 + |w.topic|, c1 + 4 + |w.topic| + |w.payload|);
  }

  lemma NoWill(qos: QoS, retain: bool, v: Version, buf: seq<byte>, c: nat, end: nat)
    requires c <= |buf| && end <= |buf|
    ensures WillBytes(None, v) == [] && ParseWill(false, qos, retain, v == V5, buf, c, end) == Success((None, c))
  {
  }

  lemma OptionalBack(text: Option<seq<byte>>, buf: seq<byte>, c: nat)
    requires text.Some? ==> Text(text.value)
    requires At(buf, c, OptionalText(text))
    ensures ParseOptionalString(text.Some?, buf, c) == Success((text, c + |OptionalText(text)|))
  {
    if text.Some? {
      hide ParseString, ValidUtf8;
      ParseInvertsString(buf, c, text.value);
    }
  }

  /** Will, user name and password, in that order. */
  lemma ConnectTailBack(p: Packet, v: Version, buf: seq<byte>, c: nat, end: nat)
    requires p.Connect? && Carried(p, v)
    requires |WillBytes(p.will, v)| <= VarInt.MAX_VARINT
    requires At(buf, c, WillBytes(p.will, v) + OptionalText(p.username) + OptionalText(p.password))
    requires c + |WillBytes(p.will, v) + OptionalText(p.username) + OptionalText(p.password)| == end <= |buf|
    ensures var flags := ConnectFlags(p.cleanSession, p.username.Some?, p.password.Some?, p.will);
            var c1, c2 := c + |WillBytes(p.will, v)|, c + |WillBytes(p.will, v)| + |OptionalText(p.username)|;
            && ParseWill(Bit(flags, 4), QoSFrom(flags / 8 % 4), Bit(flags, 32), v == V5, buf, c, end)
            == Success((p.will, c1))
            && ParseOptionalString(Bit(flags, 128), buf, c1) == Success((p.username, c2))
            && ParseOptionalString(Bit(flags, 64), buf, c2) == Success((p.password, end))
  {
    hide ParseWill, ParseOptionalString, ConnectFlags, WillBytes, OptionalText, WillCarried, Text, At, Bit, QoSFrom,
      Carries;
    var will, user, pass := WillBytes(p.will, v), OptionalText(p.username), OptionalText(p.password);
    AtSplit(buf, c, will + user, pass);
    AtSplit(buf, c, will, user);
    ConnectFlagsBack(p.cleanSession, p.username.Some?, p.password.Some?, p.will);
    var flags := ConnectFlags(p.cleanSession, p.username.Some?, p.password.Some?, p.will);
    if p.will.Some? {
      WillBack(p.will.value, v, buf, c, end);
    } else {
      NoWill(QoSFrom(flags / 8 % 4), Bit(flags, 32), v, buf, c, end);
    }
    OptionalBack(p.username, buf, c + |will|);
    OptionalBack(p.password, buf, c + |will| + |user|);
  }

  lemma ConnectBack(p: Packet, v: Version, buf: seq<byte>, start: nat, end: nat)
    requires p.Connect? && Carried(p, v) && Sendable(p, v)
    requires Framed(buf, FirstByte(p), Body(p, v), start, end)
    ensures DecodeConnect(buf, v) == Success(p)
  {
    hide *;
    var head, props, id := ConnectHead(p, v), PropertyField(p.properties, v), Prefixed(p.clientId);
    var tail := WillBytes(p.will, v) + OptionalText(p.username) + OptionalText(p.password);
    ConnectParts(p, v, buf, start, end);
    ConnectHeadBack(p, v, buf, start, end);
    PropertyFieldBack(p.properties, v, buf, start + 10, end);
    TextBack(p.clientId, buf, start + 10 + |props|);
    ConnectTailBack(p, v, buf, start + 10 + |props| + |id|, end);
    var c3 := start + 10 + |props| + |id|;
    var c4 := c3 + |WillBytes(p.will, v)|;
    var flags := ConnectFlags(p.cleanSession, p.username.Some?, p.password.Some?, p.will);
    ConnectFlagsBack(p.cleanSession, p.username.Some?, p.password.Some?, p.will);
    ConnectFolds(p, v, buf, start, end, flags, start + 10 + |props|, c3, c4, c4 + |OptionalText(p.username)|);
  }

  lemma ConnectFolds(p: Packet, v: Version, buf: seq<byte>, start: nat, end: nat, flags: byte, c2: nat, c3: nat,
                     c4: nat, c5: nat)
    requires p.Connect? && buf != [] && Content(buf) == Success((end, start)) && start + 10 <= |buf|
    requires c2 <= |buf| && c3 <= |buf| && c4 <= |buf| && c5 <= |buf|
    requires ParseConnectHead(buf, start, end) == Success(((LevelOf(v), flags, p.keepAlive), start + 10))
    requires ParsePropertiesIf(v == V5, buf, start + 10, end) == Success((p.properties, c2))
    requires ParseString(buf, c2) == Success((p.clientId, c3))
    requires ParseWill(Bit(flags, 4), QoSFrom(flags / 8 % 4), Bit(flags, 32), v == V5, buf, c3, end)
          == Success((p.will, c4))
    requires ParseOptionalString(Bit(flags, 128), buf, c4) == Success((p.username, c5))
    requires ParseOptionalString(Bit(flags, 64), buf, c5) == Success((p.password, end))
    requires Bit(flags, 2) == p.cleanSession
    ensures DecodeConnect(buf, v) == Success(p)
  {
    hide Content, ParseConnectHead, ParsePropertiesIf, ParseWill, ParseOptionalString, ParseString, Bit, QoSFrom;
  }

  /** Where the parts of a CONNECT lie. */
  lemma ConnectParts(p: Packet, v: Version, buf: seq<byte>, start: nat, end: nat)
    requires p.Connect? && Carried(p, v) && Sendable(p, v)
    requires Framed(buf, FirstByte(p), Body(p, v), start, end)
    ensures var head, props, id := ConnectHead(p, v), PropertyField(p.properties, v), Prefixed(p.clientId);
            var will, user, word := WillBytes(p.will, v), OptionalText(p.username), OptionalText(p.password);
            var c := start + |head|;
            && |head| == 10
            && At(buf, start, head) && At(buf, c, props) && At(buf, c + |props|, id)
            && At(buf, c + |props| + |id|, will + user + word)
            && c + |props| + |id| + |will + user + word| == end && end <= |buf|
            && |props| <= VarInt.MAX_VARINT && |will| <= VarInt.MAX_VARINT
    ensures Text(p.clientId) && Carries(p.properties, v)
    ensures buf != [] && buf[0] == FirstByte(p) && Content(buf) == Success((end, start))
  {
    hide *;
    var head, props, id := ConnectHead(p, v), PropertyField(p.properties, v), Prefixed(p.clientId);
    var tail := WillBytes(p.will, v) + OptionalText(p.username) + OptionalText(p.password);
    UnfoldFramed(buf, FirstByte(p), Body(p, v), start, end);
    UnfoldConnect(p, v);
    AtSplit(buf, start, head + props + id, tail);
    AtSplit(buf, start, head + props, id);
    AtSplit(buf, start, head, props);
  }

  lemma UnfoldConnect(p: Packet, v: Version)
    requires p.Connect? && Carried(p, v) && Sendable(p, v)
    ensures Body(p, v) == ConnectHead(p, v) + PropertyField(p.properties, v) + Prefixed(p.clientId)
                          + (WillBytes(p.will, v) + OptionalText(p.username) + OptionalText(p.password))
    ensures |ConnectHead(p, v)| == 10 && |Body(p, v)| <= VarInt.MAX_VARINT
    ensures Text(p.clientId) && Carries(p.properties, v)
  {
    assert |ConnectHead(p, v)| == 10;
    hide ConnectHead, Prefixed, PropertyField, WillBytes, OptionalText, Text, Carries, WillCarried;
  }

  lemma TextBack(s: seq<byte>, buf: seq<byte>, c: nat)
    requires Text(s) && At(buf, c, Prefixed(s))
    ensures ParseString(buf, c) == Success((s, c + |Prefixed(s)|))
  {
    hide ParseString, ValidUtf8;
    ParseInvertsString(buf, c, s);
  }

  // ---- Every packet ----

  /** The dispatcher sees the type the encoder wrote. */
  lemma TypeBack(p: Packet)
    ensures FirstByte(p) / 16 == match p
                                 case Connect(_, _, _, _, _, _, _) => 1
                                 case ConnAck(_, _, _) => 2
                                 case Publish(_, _, _, _, _, _, _) => 3
                                 case PubAck(_) => 4
                                 case PubRec(_) => 5
                                 case PubRel(_) => 6
                                 case PubComp(_) => 7
                                 case Subscribe(_, _, _) => 8
                                 case SubAck(_, _, _) => 9
                                 case Unsubscribe(_, _, _) => 10
                                 case UnsubAck(_, _, _) => 11
                                 case PingReq => 12
                                 case PingResp => 13
                                 case Disconnect(_, _) => 14
  {
  }

  lemma PacketBack(p: Packet, v: Version, buf: seq<byte>, start: nat, end: nat)
    requires Carried(p, v) && Sendable(p, v)
    requires Framed(buf, FirstByte(p), Body(p, v), start, end)
    ensures DecodePacket(buf, v) == Success(p)
  {
    TypeBack(p);
    hide FirstByte, At, Content, DecodeConnect, DecodeConnAck, DecodePublish, DecodeAck, DecodeSubscribe, DecodeCodes,
      DecodeUnsubscribe, DecodeDisconnect, AckBytes, Carries, Shaped, Text;
    match p
    case Connect(_, _, _, _, _, _, _) => ConnectBack(p, v, buf, start, end);
    case ConnAck(_, _, _) => ConnAckBack(p, v, buf, start, end);
    case Publish(_, _, _, _, _, _, _) => PublishBack(p, v, buf, start, end);
    case PubAck(a) => AckBack(a, FirstByte(p), v, buf, start, end);
    case PubRec(a) => AckBack(a, FirstByte(p), v, buf, start, end);
    case PubRel(a) => AckBack(a, FirstByte(p), v, buf, start, end);
    case PubComp(a) => AckBack(a, FirstByte(p), v, buf, start, end);
    case Subscribe(_, _, _) => SubscribeBack(p, v, buf, start, end);
    case SubAck(_, _, _) => CodesPacketBack(p, v, buf, start, end);
    case Unsubscribe(_, _, _) => UnsubscribeBack(p, v, buf, start, end);
    case UnsubAck(_, _, _) => CodesPacketBack(p, v, buf, start, end);
    case PingReq =>
    case PingResp =>
    case Disconnect(_, _) => DisconnectBack(p, v, buf, start, end);
  }

  /** Decoding a buffer that starts with an encoded packet gives the packet back. */
  lemma DecodeInvertsEncoded(p: Packet, v: Version, rest: seq<byte>)
    requires Carried(p, v) && Sendable(p, v)
    ensures Decode(Encoded(p, v) + rest, v) == Success(Some(p))
  {
    hide Carried, DecodePacket, Body, FirstByte, Framed, Content;
    var buf := Encoded(p, v) + rest;
    Halves(Encoded(p, v), rest);
    ContentOfFrame(buf, FirstByte(p), Body(p, v));
    var start := 1 + |VarInt.Encoding(|Body(p, v)|)|;
    PacketBack(p, v, buf, start, start + |Body(p, v)|);
  }

  /** The encoders do not check the limit, but what they make of a larger body is refused: its length is unreadable. */
  lemma TooLargeIsRefused(p: Packet, v: Version, rest: seq<byte>)
    requires !Sendable(p, v)
    ensures Decode(Encoded(p, v) + rest, v) == Failure(MalformedPacket)
  {
    var first, body := FirstByte(p), Body(p, v);
    var buf := Encoded(p, v) + rest;
    var tail := Overrun(VarInt.Encoding(|body|), body) + rest;
    assert buf[0] == first && buf[1..] == VarInt.Encoding(|body|) + tail by { hide Body, FirstByte, Overrun; }
    VarInt.ReadInvertsEncoding(|body|, tail);
    assert Content(buf) == Failure(MalformedPacket);
    TypeBack(p);
    PingsAreSendable(p, v);
    hide Body, FirstByte, Encoded, Overrun;
    UnreadableLength(buf, v);
  }

  lemma PingsAreSendable(p: Packet, v: Version)
    ensures p.PingReq? || p.PingResp? ==> Sendable(p, v)
  {
  }

  lemma UnreadableLength(buf: seq<byte>, v: Version)
    requires |buf| > 1 && Content(buf) == Failure(MalformedPacket)
    requires 1 <= buf[0] / 16 <= 14 && buf[0] / 16 != 12 && buf[0] / 16 != 13
    ensures Decode(buf, v) == Failure(MalformedPacket)
  {
    hide Content, Bit, QoSFrom;
  }

  /** A well-formed packet survives encoding and decoding if and only if its body is within the protocol's limit. */
  lemma RoundTripsIff(p: Packet, v: Version, rest: seq<byte>)
    requires Carried(p, v)
    ensures Decode(Encoded(p, v) + rest, v) == Success(Some(p)) <==> Sendable(p, v)
  {
    hide Carried, Decode, Encoded, Sendable;
    if Sendable(p, v) {
      DecodeInvertsEncoded(p, v, rest);
    } else {
      TooLargeIsRefused(p, v, rest);
    }
  }
}
