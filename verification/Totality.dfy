/**
 What the decoders accept and what they never do, on arbitrary input.
 */
module Totality {
  import opened Wrappers
  import opened Bytes
  import opened PacketErrors
  import opened Fields
  import opened Properties
  import opened Packets
  import opened Decoder
  import opened RoundTrip
  import VarInt

  /** The slice is one whole frame, which is what the frame iterator yields. */
  predicate ExactFrame(buf: seq<byte>) {
    buf != [] && Content(buf).Success? && Content(buf).value.0 == |buf|
  }

  /** What the readers of fields report: no panic, no unknown type, and nothing about a buffer to write to. */
  ghost predicate Calm<T>(r: Result<T, PacketError>) {
    r.Failure? ==> || r.error.IncompletePacket? || r.error.MalformedPacket? || r.error.InvalidUtf8String?
                   || r.error.TooManyProperties? || r.error.BatchCapacityExceeded?
  }

  lemma {:induction false} VarIntIsCalm(s: seq<byte>, room: nat)
    requires room > 0
    ensures Calm(VarInt.ReadWithin(s, room))
    decreases room
  {
    if s != [] && room > 1 {
      VarIntIsCalm(s[1..], room - 1);
    }
  }

  lemma DataLengthIsCalm(shape: Shape, buf: seq<byte>, c: nat)
    requires c <= |buf|
    ensures Calm(DataLength(shape, buf, c))
  {
    VarIntIsCalm(buf[c..], 4);
  }

  lemma {:induction false} EachIsCalm(buf: seq<byte>, c: nat, end: nat, sofar: seq<Property>)
    requires c <= end <= |buf|
    ensures Calm(ParseEach(buf, c, end, sofar))
    decreases end - c
  {
    hide DataLength, ShapeOf;
    if c < end {
      DataLengthIsCalm(ShapeOf(buf[c]), buf, c + 1);
      var length := DataLength(ShapeOf(buf[c]), buf, c + 1);
      if length.Success? && c + 1 + length.value <= end {
        var next := c + 1 + length.value;
        EachIsCalm(buf, next, end, sofar + [Property(buf[c], buf[c + 1..next])]);
      }
    }
  }

  lemma PropertiesAreCalm(present: bool, buf: seq<byte>, c: nat, end: nat)
    requires c <= |buf| && end <= |buf|
    ensures Calm(ParsePropertiesIf(present, buf, c, end))
  {
    hide ParseEach;
    VarIntIsCalm(buf[c..], 4);
    if ParseVarInt(buf, c).Success? {
      var (len, start) := ParseVarInt(buf, c).value;
      if start + len <= |buf| {
        EachIsCalm(buf, start, start + len, []);
      }
    }
  }

  lemma ContentIsCalm(buf: seq<byte>)
    requires buf != []
    ensures Calm(Content(buf)) && Calm(ParseId(buf))
  {
    VarIntIsCalm(buf[1..], 4);
  }

  lemma StringIsCalm(buf: seq<byte>, c: nat)
    ensures Calm(ParseBinary(buf, c)) && Calm(ParseString(buf, c))
  {
    hide ValidUtf8;
  }

  lemma {:induction false} FiltersAreCalm(buf: seq<byte>, c: nat, end: nat, sofar: seq<(seq<byte>, QoS)>)
    requires end <= |buf|
    ensures Calm(ParseFilters(buf, c, end, sofar))
    decreases end - c
  {
    StringIsCalm(buf, c);
    hide ParseString;
    if c < end && ParseString(buf, c).Success? {
      var (topic, next) := ParseString(buf, c).value;
      if next < |buf| {
        FiltersAreCalm(buf, next + 1, end, sofar + [(topic, QoSFrom(buf[next]))]);
      }
    }
  }

  lemma {:induction false} TopicsAreCalm(buf: seq<byte>, c: nat, end: nat, sofar: seq<seq<byte>>)
    requires end <= |buf|
    ensures Calm(ParseTopics(buf, c, end, sofar))
    decreases end - c
  {
    StringIsCalm(buf, c);
    hide ParseString;
    if c < end && ParseString(buf, c).Success? {
      var (topic, next) := ParseString(buf, c).value;
      TopicsAreCalm(buf, next, end, sofar + [topic]);
    }
  }

  lemma {:induction false} CodesAreCalm(buf: seq<byte>, c: nat, end: nat, sofar: seq<byte>)
    requires end <= |buf|
    ensures Calm(ParseCodes(buf, c, end, sofar))
    decreases end - c
  {
    if c < end {
      CodesAreCalm(buf, c + 1, end, sofar + [buf[c]]);
    }
  }

  lemma ConnectFieldsAreCalm(buf: seq<byte>, c: nat, end: nat)
    requires c <= |buf| && end <= |buf|
    ensures Calm(ParseConnectHead(buf, c, end))
    ensures forall present :: Calm(ParseOptionalString(present, buf, c))
    ensures forall present, qos, retain, v5 :: Calm(ParseWill(present, qos, retain, v5, buf, c, end))
  {
    forall c: nat | c <= |buf| ensures Calm(ParseString(buf, c)) && Calm(ParseBinary(buf, c)) { StringIsCalm(buf, c); }
    forall b { PropertiesAreCalm(b, buf, c, end); }
    hide ParseString, ParseBinary, ParsePropertiesIf;
  }

  lemma ConnectIsCalm(buf: seq<byte>, v: Version)
    requires buf != []
    ensures Calm(DecodeConnect(buf, v))
  {
    hide Content, ParseConnectHead, ParseString, ParsePropertiesIf, ParseWill, ParseOptionalString, Bit, QoSFrom;
    ContentIsCalm(buf);
    if Content(buf).Failure? { return; }
    var (end, start) := Content(buf).value;
    ConnectFieldsAreCalm(buf, start, end);
    var head := ParseConnectHead(buf, start, end);
    if head.Failure? { return; }
    var ((level, flags, _), c1) := head.value;
    var v5 := v == V5 || level == 5;
    PropertiesAreCalm(v5, buf, c1, end);
    var props := ParsePropertiesIf(v5, buf, c1, end);
    if props.Failure? { return; }
    StringIsCalm(buf, props.value.1);
    var id := ParseString(buf, props.value.1);
    if id.Failure? { return; }
    ConnectFieldsAreCalm(buf, id.value.1, end);
    var will := ParseWill(Bit(flags, 4), QoSFrom(flags / 8 % 4), Bit(flags, 32), v5, buf, id.value.1, end);
    if will.Failure? { return; }
    ConnectFieldsAreCalm(buf, will.value.1, end);
    var user := ParseOptionalString(Bit(flags, 128), buf, will.value.1);
    if user.Success? {
      ConnectFieldsAreCalm(buf, user.value.1, end);
    }
  }

  /** The variable header of a PUBLISH can be read from the slice but ends behind the content its length declares. */
  predicate HeaderOverruns(buf: seq<byte>, v: Version)
    requires buf != []
  {
    Content(buf).Success? &&
    var (end, start) := Content(buf).value;
    ParseString(buf, start).Success? &&
    var c1 := ParseString(buf, start).value.1;
    var id := ParsePacketId(QoSFrom(buf[0] / 2 % 4), buf, c1, end);
    id.Success? &&
    var props := ParsePropertiesIf(v == V5, buf, id.value.1, end);
    props.Success? && props.value.1 > end
  }

  lemma PublishPanicsIff(buf: seq<byte>, v: Version)
    requires buf != []
    ensures DecodePublish(buf, v) == Failure(SliceOutOfRange) <==> HeaderOverruns(buf, v)
    ensures Calm(DecodePublish(buf, v)) || DecodePublish(buf, v) == Failure(SliceOutOfRange)
  {
    ContentIsCalm(buf);
    hide Content, ParseString, ParsePropertiesIf, Bit, QoSFrom;
    if Content(buf).Success? {
      var (end, start) := Content(buf).value;
      StringIsCalm(buf, start);
      var qos := QoSFrom(buf[0] / 2 % 4);
      if ParseString(buf, start).Success? {
        var c1 := ParseString(buf, start).value.1;
        if ParsePacketId(qos, buf, c1, end).Success? {
          PropertiesAreCalm(v == V5, buf, ParsePacketId(qos, buf, c1, end).value.1, end);
        }
      }
    }
  }

  /** So a header can only overrun when the slice goes on behind the content. */
  lemma OverrunNeedsMore(buf: seq<byte>, v: Version)
    requires buf != [] && HeaderOverruns(buf, v)
    ensures Content(buf).value.0 < |buf|
  {
    hide Content, ParseString, ParsePropertiesIf, QoSFrom;
  }

  lemma IdPacketsAreCalm(buf: seq<byte>, v: Version)
    requires buf != []
    ensures Calm(DecodeConnAck(buf, v)) && Calm(DecodeAck(buf, v)) && Calm(DecodeDisconnect(buf, v))
    ensures Calm(DecodeSubscribe(buf, v)) && Calm(DecodeUnsubscribe(buf, v)) && Calm(DecodeCodes(buf, v))
  {
    ContentIsCalm(buf);
    forall b, c: nat, end: nat | c <= |buf| && end <= |buf| ensures Calm(ParsePropertiesIf(b, buf, c, end)) {
      PropertiesAreCalm(b, buf, c, end);
    }
    forall c: nat, end: nat | c <= |buf| && end <= |buf|
      ensures Calm(ParseFilters(buf, c, end, [])) && Calm(ParseTopics(buf, c, end, []))
      ensures Calm(ParseCodes(buf, c, end, []))
    {
      FiltersAreCalm(buf, c, end, []);
      TopicsAreCalm(buf, c, end, []);
      CodesAreCalm(buf, c, end, []);
    }
    hide Content, ParseId, ParsePropertiesIf, ParseFilters, ParseTopics, ParseCodes, Bit;
  }

  /** Decoding panics exactly on a PUBLISH whose header overruns its content. */
  lemma DecodePanicsIff(buf: seq<byte>, v: Version)
    ensures Decode(buf, v) == Failure(SliceOutOfRange) <==> buf != [] && buf[0] / 16 == 3 && HeaderOverruns(buf, v)
  {
    hide DecodeConnect, DecodeConnAck, DecodePublish, DecodeAck, DecodeSubscribe, DecodeCodes, DecodeUnsubscribe,
      DecodeDisconnect, HeaderOverruns;
    if buf != [] {
      ConnectIsCalm(buf, v);
      IdPacketsAreCalm(buf, v);
      PublishPanicsIff(buf, v);
    }
  }

  /** Only the types 0 and 15 are unknown; whatever else fails is a panic or one of the five errors of the readers. */
  lemma UnknownTypeIff(buf: seq<byte>, v: Version, packetType: int)
    ensures Decode(buf, v) == Failure(InvalidPacketType(packetType))
       <==> buf != [] && packetType in {0, 15} && 16 * packetType <= buf[0] < 16 * packetType + 16
    ensures Calm(Decode(buf, v)) || Decode(buf, v) == Failure(SliceOutOfRange)
            || Decode(buf, v) == Failure(InvalidPacketType(buf[0] / 16))
  {
    hide DecodeConnect, DecodeConnAck, DecodePublish, DecodeAck, DecodeSubscribe, DecodeCodes, DecodeUnsubscribe,
      DecodeDisconnect, HeaderOverruns;
    if buf != [] {
      ConnectIsCalm(buf, v);
      IdPacketsAreCalm(buf, v);
      PublishPanicsIff(buf, v);
    }
  }

  /** On a slice that is exactly one frame, no decoder leaves the slice. */
  lemma ExactFramesNeverPanic(buf: seq<byte>, v: Version)
    requires ExactFrame(buf)
    ensures Decode(buf, v) != Failure(SliceOutOfRange)
  {
    hide Decode, Content, HeaderOverruns;
    DecodePanicsIff(buf, v);
    if HeaderOverruns(buf, v) {
      OverrunNeedsMore(buf, v);
    }
  }

  /**
   Longer slices can panic: a PUBLISH that declares no content, followed by bytes that read as a topic.
   The connection handshake and the embedded `poll` decode such slices.
   */
  lemma LongerSlicesCanPanic()
    ensures Decode([0x30, 0x00, 0x00, 0x01, 0x61], V3_1_1) == Failure(SliceOutOfRange)
  {
    var buf: seq<byte> := [0x30, 0x00, 0x00, 0x01, 0x61];
    assert buf[1..] == VarInt.Encoding(0) + [0x00, 0x01, 0x61];
    VarInt.ReadInvertsEncoding(0, [0x00, 0x01, 0x61]);
    assert Content(buf) == Success((2, 2));
    assert buf[4..5] == [0x61];
    assert ParseString(buf, 2) == Success(([0x61], 5)) by {
      assert buf[4..5][1..] == [];
    }
  }

  // ---- What is accepted is well formed ----

  lemma PropertiesIfAreCarried(v: Version, buf: seq<byte>, c: nat, end: nat)
    requires c <= |buf| && end <= |buf|
    ensures var p := ParsePropertiesIf(v == V5, buf, c, end); p.Success? ==> Carries(p.value.0, v)
  {
    hide ParseProperties, Shaped;
    if v == V5 && c < end {
      PropertiesAreWellFormed(buf, c);
    }
  }

  lemma ReadTextIsText(buf: seq<byte>, c: nat)
    ensures ParseString(buf, c).Success? ==> Text(ParseString(buf, c).value.0)
    ensures ParseBinary(buf, c).Success? ==> |ParseBinary(buf, c).value.0| <= 0xFFFF
  {
    hide ValidUtf8;
  }

  lemma {:induction false} FiltersAreText(buf: seq<byte>, c: nat, end: nat, sofar: seq<(seq<byte>, QoS)>)
    requires end <= |buf| && |sofar| <= MAX_BATCH && forall f :: f in sofar ==> Text(f.0)
    ensures var r := ParseFilters(buf, c, end, sofar);
            r.Success? ==> |r.value| <= MAX_BATCH && forall f :: f in r.value ==> Text(f.0)
    decreases end - c
  {
    ReadTextIsText(buf, c);
    hide ParseString, Text;
    if c < end && ParseString(buf, c).Success? && ParseString(buf, c).value.1 < |buf| && |sofar| < MAX_BATCH {
      var (topic, next) := ParseString(buf, c).value;
      FiltersAreText(buf, next + 1, end, sofar + [(topic, QoSFrom(buf[next]))]);
    }
  }

  lemma {:induction false} TopicsAreText(buf: seq<byte>, c: nat, end: nat, sofar: seq<seq<byte>>)
    requires end <= |buf| && |sofar| <= MAX_BATCH && forall t :: t in sofar ==> Text(t)
    ensures var r := ParseTopics(buf, c, end, sofar);
            r.Success? ==> |r.value| <= MAX_BATCH && forall t :: t in r.value ==> Text(t)
    decreases end - c
  {
    ReadTextIsText(buf, c);
    hide ParseString, Text;
    if c < end && ParseString(buf, c).Success? && |sofar| < MAX_BATCH {
      var (topic, next) := ParseString(buf, c).value;
      TopicsAreText(buf, next, end, sofar + [topic]);
    }
  }

  lemma {:induction false} CodesFit(buf: seq<byte>, c: nat, end: nat, sofar: seq<byte>)
    requires end <= |buf| && |sofar| <= MAX_BATCH
    ensures var r := ParseCodes(buf, c, end, sofar); r.Success? ==> |r.value| <= MAX_BATCH
    decreases end - c
  {
    if c < end && |sofar| < MAX_BATCH {
      CodesFit(buf, c + 1, end, sofar + [buf[c]]);
    }
  }

  lemma WillIsCarried(qos: QoS, retain: bool, present: bool, buf: seq<byte>, c: nat, end: nat)
    requires c <= |buf| && end <= |buf|
    ensures var p := ParseWill(present, qos, retain, true, buf, c, end);
            p.Success? && p.value.0.Some? ==> WillCarried(p.value.0.value, V5)
  {
    hide ParseString, ParseBinary, ParsePropertiesIf, Text, Carries;
    if present && ParseWill(present, qos, retain, true, buf, c, end).Success? {
      PropertiesIfAreCarried(V5, buf, c, end);
      var c1 := ParsePropertiesIf(true, buf, c, end).value.1;
      ReadTextIsText(buf, c1);
      ReadTextIsText(buf, ParseString(buf, c1).value.1);
    }
  }

  lemma OptionalIsText(present: bool, buf: seq<byte>, c: nat)
    requires c <= |buf|
    ensures var p := ParseOptionalString(present, buf, c); p.Success? && p.value.0.Some? ==> Text(p.value.0.value)
  {
    hide ParseString, Text;
    if present {
      ReadTextIsText(buf, c);
    }
  }

  lemma ConnectIsCarried(buf: seq<byte>, v: Version)
    requires buf != []
    ensures var r := DecodeConnect(buf, v); r.Success? ==> r.value.Connect? && (v == V5 ==> Carried(r.value, v))
  {
    hide Content, ParseConnectHead, ParseString, ParsePropertiesIf, ParseWill, ParseOptionalString, Text, Carries,
      WillCarried, Bit, QoSFrom;
    if v == V5 && DecodeConnect(buf, v).Success? {
      var (end, start) := Content(buf).value;
      var ((_, flags, _), c1) := ParseConnectHead(buf, start, end).value;
      var c2 := ParsePropertiesIf(true, buf, c1, end).value.1;
      var c3 := ParseString(buf, c2).value.1;
      var qos, retain := QoSFrom(flags / 8 % 4), Bit(flags, 32);
      var c4 := ParseWill(Bit(flags, 4), qos, retain, true, buf, c3, end).value.1;
      var c5 := ParseOptionalString(Bit(flags, 128), buf, c4).value.1;
      PropertiesIfAreCarried(V5, buf, c1, end);
      ReadTextIsText(buf, c2);
      WillIsCarried(qos, retain, Bit(flags, 4), buf, c3, end);
      OptionalIsText(Bit(flags, 128), buf, c4);
      OptionalIsText(Bit(flags, 64), buf, c5);
    }
  }

  lemma PublishIsCarried(buf: seq<byte>, v: Version)
    requires buf != [] && DecodePublish(buf, v).Success?
    ensures Carried(DecodePublish(buf, v).value, v)
  {
    hide Content, ParseString, ParsePropertiesIf, Text, Carries, Bit, QoSFrom;
    var (end, start) := Content(buf).value;
    ReadTextIsText(buf, start);
    var c1 := ParseString(buf, start).value.1;
    var c2 := ParsePacketId(QoSFrom(buf[0] / 2 % 4), buf, c1, end).value.1;
    PropertiesIfAreCarried(v, buf, c2, end);
  }

  lemma ReasonIsCarried(buf: seq<byte>, c: nat, end: nat, v: Version)
    requires c <= end <= |buf|
    ensures var r := ParseReason(buf, c, end, v);
            r.Success? ==> Carries(r.value.0.1, v) && (v != V5 ==> r.value.0.0 == 0)
  {
    hide ParsePropertiesIf, Shaped;
    if v == V5 && c < end {
      PropertiesIfAreCarried(V5, buf, c + 1, end);
    }
  }

  lemma AcksAreCarried(buf: seq<byte>, v: Version)
    requires buf != []
    ensures DecodeAck(buf, v).Success? ==> AckCarried(DecodeAck(buf, v).value, v)
    ensures DecodeDisconnect(buf, v).Success? ==>
              DecodeDisconnect(buf, v).value.Disconnect? && Carried(DecodeDisconnect(buf, v).value, v)
    ensures DecodeConnAck(buf, v).Success? ==>
              DecodeConnAck(buf, v).value.ConnAck? && Carried(DecodeConnAck(buf, v).value, v)
  {
    hide Content, ParseId, ParseReason, ParsePropertiesIf, Carries, Bit;
    if ParseId(buf).Success? {
      ReasonIsCarried(buf, ParseId(buf).value.1, ParseId(buf).value.2, v);
    }
    if Content(buf).Success? {
      var (end, c) := Content(buf).value;
      ReasonIsCarried(buf, c, end, v);
      if c + 2 <= end {
        PropertiesIfAreCarried(v, buf, c + 2, end);
      }
    }
    NothingIsCarried(v);
  }

  lemma NothingIsCarried(v: Version)
    ensures Carries([], v)
  {
  }

  lemma ListsAreCarried(buf: seq<byte>, v: Version)
    requires buf != []
    ensures DecodeSubscribe(buf, v).Success? ==> Carried(DecodeSubscribe(buf, v).value, v)
    ensures DecodeUnsubscribe(buf, v).Success? ==> Carried(DecodeUnsubscribe(buf, v).value, v)
    ensures DecodeCodes(buf, v).Success? ==>
              |DecodeCodes(buf, v).value.1| <= MAX_BATCH && Carries(DecodeCodes(buf, v).value.2, v)
  {
    hide ParseId, ParsePropertiesIf, ParseFilters, ParseTopics, ParseCodes, Carries, Text;
    if ParseId(buf).Success? {
      var (_, c1, end) := ParseId(buf).value;
      PropertiesIfAreCarried(v, buf, c1, end);
      if ParsePropertiesIf(v == V5, buf, c1, end).Success? {
        var c2 := ParsePropertiesIf(v == V5, buf, c1, end).value.1;
        FiltersAreText(buf, c2, end, []);
        TopicsAreText(buf, c2, end, []);
        CodesFit(buf, c2, end, []);
      }
    }
  }

  /**
   Every accepted packet is well formed for the version it was decoded under. CONNECT is the exception before
   version 5: it trusts the protocol level in the packet and may then carry properties.
   */
  lemma AcceptedIsCarried(buf: seq<byte>, v: Version)
    requires buf != [] && DecodePacket(buf, v).Success?
    ensures var p := DecodePacket(buf, v).value; Carried(p, v) || (p.Connect? && v != V5)
  {
    hide DecodeConnect, DecodeConnAck, DecodePublish, DecodeAck, DecodeSubscribe, DecodeCodes, DecodeUnsubscribe,
      DecodeDisconnect, Carries, Text;
    match buf[0] / 16
    case 1 => ConnectIsCarried(buf, v);
    case 3 => PublishIsCarried(buf, v);
    case 2 | 4 | 5 | 6 | 7 | 14 => AcksAreCarried(buf, v);
    case 8 | 9 | 10 | 11 => ListsAreCarried(buf, v);
    case _ =>
  }

  /** Whatever was accepted survives being encoded and decoded again, however it was encoded first. */
  lemma ReencodingKeepsThePacket(buf: seq<byte>, v: Version, rest: seq<byte>)
    requires Decode(buf, v).Success? && Decode(buf, v).value.Some?
    requires var p := Decode(buf, v).value.value; Sendable(p, v) && (p.Connect? && v != V5 ==> Carried(p, v))
    ensures Decode(Encoded(Decode(buf, v).value.value, v) + rest, v) == Decode(buf, v)
  {
    hide DecodePacket, Carried, Encoded, Sendable;
    AcceptedIsCarried(buf, v);
    DecodeInvertsEncoded(Decode(buf, v).value.value, v, rest);
  }
}
