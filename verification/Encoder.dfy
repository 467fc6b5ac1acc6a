/**
 Packet encoders (the `EncodePacket` implementations of crates/mqtt-packet/src/codec.rs).

 Every encoder keeps four bytes for the remaining length, writes the body behind them, writes the
 true length and shifts the body left in place. `lo` is the start of the slice the caller passed.
 */
module Encoder {
  import opened Wrappers
  import opened Bytes
  import opened PacketErrors
  import opened Fields
  import opened Properties
  import opened Packets
  import VarInt

  /** Every length-prefixed field fits its two-byte length. */
  predicate LengthsFit(p: Packet) {
    match p
    case Connect(_, _, clientId, username, password, will, _) =>
      && |clientId| <= 0xFFFF
      && (username.Some? ==> |username.value| <= 0xFFFF)
      && (password.Some? ==> |password.value| <= 0xFFFF)
      && (will.Some? ==> |will.value.topic| <= 0xFFFF && |will.value.payload| <= 0xFFFF)
    case Publish(_, _, _, topic, _, _, _) => |topic| <= 0xFFFF
    case Subscribe(_, filters, _) => FiltersFit(filters)
    case Unsubscribe(_, topics, _) => forall t :: t in topics ==> |t| <= 0xFFFF
    case _ => true
  }

  predicate FiltersFit(filters: seq<(seq<byte>, QoS)>) {
    forall f :: f in filters ==> |f.0| <= 0xFFFF
  }

  /**
   Room an encoder needs: the reserved length bytes count, even though the finished packet is shorter, and so does a
   length field that is longer than the reserve.
   */
  function Space(p: Packet, v: Version): (n: nat)
    ensures |Encoded(p, v)| <= n
  {
    if p.PingReq? || p.PingResp? then PingIsShort(p, v); 2 else FrameSpace(Body(p, v))
  }

  function FrameSpace(body: seq<byte>): (n: nat)
    ensures 5 + |body| <= n && 1 + |VarInt.Encoding(|body|)| + |body| <= n
  {
    var length := |VarInt.Encoding(|body|)|;
    1 + (if length <= 4 then 4 else length) + |body|
  }

  lemma PingIsShort(p: Packet, v: Version)
    requires p.PingReq? || p.PingResp?
    ensures |Encoded(p, v)| == 2 && Body(p, v) == []
  {
    assert VarInt.Encoding(0) == [0];
  }

  /**
   The last step of an encoder, `copy_within`, leaves the slice and panics: an empty body starts behind the end of a
   slice of 2 to 4 bytes, and a body behind a length field longer than the reserve is moved up instead of down.
   */
  predicate ShiftPanics(body: seq<byte>, room: nat) {
    (if body == [] then 2 else 5 + |body|) <= room < FrameSpace(body)
  }

  predicate Panics(p: Packet, v: Version, room: nat) {
    !p.PingReq? && !p.PingResp? && LengthsFit(p) && ShiftPanics(Body(p, v), room)
  }

  // ---- Which error comes ----

  /** The size of a part of a body, and where in it the first string begins that is too long for its prefix. */
  datatype Shape = Shape(spoiled: Option<nat>, size: nat)

  function Plain(size: nat): Shape {
    Shape(None, size)
  }

  function TextShape(s: seq<byte>): Shape {
    Shape(if |s| > 0xFFFF then Some(0) else None, 2 + |s|)
  }

  function Then(a: Shape, b: Shape): Shape {
    Shape(if a.spoiled.Some? then a.spoiled
          else if b.spoiled.Some? then Some(a.size + b.spoiled.value) else None,
          a.size + b.size)
  }

  /** Writing from `cursor` on stops at the end of the slice or at that string, whichever comes first. */
  function Writes(a: Shape, capacity: nat, cursor: nat): Result<nat, PacketError> {
    if a.spoiled.Some? then Failure(if cursor + a.spoiled.value > capacity then BufferTooSmall else PayloadTooLarge)
    else if a.size > 0 && cursor + a.size > capacity then Failure(BufferTooSmall)
    else Success(cursor + a.size)
  }

  /** One part after the other is both parts together. */
  lemma WritesThen(a: Shape, b: Shape, capacity: nat, cursor: nat)
    ensures Writes(Then(a, b), capacity, cursor)
         == if Writes(a, capacity, cursor).Failure? then Writes(a, capacity, cursor)
            else Writes(b, capacity, cursor + a.size)
    ensures Writes(a, capacity, cursor).Success? ==> Writes(a, capacity, cursor).value == cursor + a.size
  {
  }

  function FiltersShape(filters: seq<(seq<byte>, QoS)>): Shape {
    if filters == [] then Plain(0) else Then(Then(TextShape(filters[0].0), Plain(1)), FiltersShape(filters[1..]))
  }

  function TopicsShape(topics: seq<seq<byte>>): Shape {
    if topics == [] then Plain(0) else Then(TextShape(topics[0]), TopicsShape(topics[1..]))
  }

  function OptionalShape(text: Option<seq<byte>>): Shape {
    match text
    case None => Plain(0)
    case Some(s) => TextShape(s)
  }

  function WillShape(will: Option<Will>, v: Version): Shape {
    match will
    case None => Plain(0)
    case Some(w) => Then(Then(Plain(|PropertyField(w.properties, v)|), TextShape(w.topic)), TextShape(w.payload))
  }

  /** The parts of a body in the order in which they are written. */
  function ShapeOf(p: Packet, v: Version): Shape {
    match p
    case Connect(_, _, clientId, username, password, will, properties) =>
      Then(Then(Then(Then(Then(Plain(|ConnectHead(p, v)|), Plain(|PropertyField(properties, v)|)),
                          TextShape(clientId)), WillShape(will, v)), OptionalShape(username)), OptionalShape(password))
    case Publish(_, qos, _, topic, packetId, payload, properties) =>
      Then(TextShape(topic), Plain(|PacketIdBytes(qos, packetId) + PropertyField(properties, v) + payload|))
    case Subscribe(id, filters, properties) =>
      Then(Plain(|BigEndian16(id) + PropertyField(properties, v)|), FiltersShape(filters))
    case Unsubscribe(id, topics, properties) =>
      Then(Plain(|BigEndian16(id) + PropertyField(properties, v)|), TopicsShape(topics))
    case _ => Plain(|Body(p, v)|)
  }

  lemma {:induction false} FiltersShapeFits(filters: seq<(seq<byte>, QoS)>)
    ensures FiltersShape(filters).size == |FilterBytes(filters)|
    ensures FiltersShape(filters).spoiled.None? <==> FiltersFit(filters)
  {
    if filters != [] {
      FiltersShapeFits(filters[1..]);
      assert filters == [filters[0]] + filters[1..];
      hide BigEndian16, QoSBits;
    }
  }

  lemma {:induction false} TopicsShapeFits(topics: seq<seq<byte>>)
    ensures TopicsShape(topics).size == |TopicBytes(topics)|
    ensures TopicsShape(topics).spoiled.None? <==> forall t :: t in topics ==> |t| <= 0xFFFF
  {
    if topics != [] {
      TopicsShapeFits(topics[1..]);
      assert topics == [topics[0]] + topics[1..];
      hide BigEndian16;
    }
  }

  lemma ShapeFits(p: Packet, v: Version)
    ensures ShapeOf(p, v).size == |Body(p, v)| && (ShapeOf(p, v).spoiled.None? <==> LengthsFit(p))
  {
    hide *;
    match p
    case Connect(_, _, _, _, _, _, _) => ConnectShapeFits(p, v);
    case Publish(_, _, _, _, _, _, _) => PublishShapeFits(p, v);
    case Subscribe(_, filters, _) =>
      FiltersShapeFits(filters);
      SubscribeShapeFits(p, v);
    case Unsubscribe(_, topics, _) =>
      TopicsShapeFits(topics);
      UnsubscribeShapeFits(p, v);
    case _ => PlainShapeFits(p, v);
  }

  lemma PlainShapeFits(p: Packet, v: Version)
    requires !p.Connect? && !p.Publish? && !p.Subscribe? && !p.Unsubscribe?
    ensures ShapeOf(p, v).size == |Body(p, v)| && ShapeOf(p, v).spoiled.None? && LengthsFit(p)
  {
    hide Body;
  }

  lemma PublishShapeFits(p: Packet, v: Version)
    requires p.Publish?
    ensures ShapeOf(p, v).size == |Body(p, v)| && (ShapeOf(p, v).spoiled.None? <==> LengthsFit(p))
  {
    hide BigEndian16, PropertyField, PacketIdBytes;
  }

  lemma SubscribeShapeFits(p: Packet, v: Version)
    requires p.Subscribe? && FiltersShape(p.filters).size == |FilterBytes(p.filters)|
    requires FiltersShape(p.filters).spoiled.None? <==> FiltersFit(p.filters)
    ensures ShapeOf(p, v).size == |Body(p, v)| && (ShapeOf(p, v).spoiled.None? <==> LengthsFit(p))
  {
    hide FilterBytes, FiltersShape, FiltersFit, BigEndian16, PropertyField;
  }

  lemma UnsubscribeShapeFits(p: Packet, v: Version)
    requires p.Unsubscribe? && TopicsShape(p.topics).size == |TopicBytes(p.topics)|
    requires TopicsShape(p.topics).spoiled.None? <==> forall t :: t in p.topics ==> |t| <= 0xFFFF
    ensures ShapeOf(p, v).size == |Body(p, v)| && (ShapeOf(p, v).spoiled.None? <==> LengthsFit(p))
  {
    hide TopicBytes, TopicsShape, BigEndian16, PropertyField;
  }

  lemma ConnectShapeFits(p: Packet, v: Version)
    requires p.Connect?
    ensures ShapeOf(p, v).size == |Body(p, v)| && (ShapeOf(p, v).spoiled.None? <==> LengthsFit(p))
  {
    WillShapeFits(p.will, v);
    OptionalShapeFits(p.username);
    OptionalShapeFits(p.password);
    hide BigEndian16, PropertyField, ConnectHead, WillShape, WillBytes, OptionalShape, OptionalText;
  }

  lemma WillShapeFits(will: Option<Will>, v: Version)
    ensures WillShape(will, v).size == |WillBytes(will, v)|
    ensures WillShape(will, v).spoiled.None?
       <==> (will.Some? ==> |will.value.topic| <= 0xFFFF && |will.value.payload| <= 0xFFFF)
  {
    hide BigEndian16, PropertyField;
  }

  lemma OptionalShapeFits(text: Option<seq<byte>>)
    ensures OptionalShape(text).size == |OptionalText(text)|
    ensures OptionalShape(text).spoiled.None? <==> (text.Some? ==> |text.value| <= 0xFFFF)
  {
    hide BigEndian16;
  }

  /** The result of an encoder given `room` bytes. `SliceOutOfRange` is a panic. */
  function Tried(p: Packet, v: Version, room: nat): Result<nat, PacketError> {
    if ShapeOf(p, v).spoiled.Some? then
      Failure(if room < 5 + ShapeOf(p, v).spoiled.value then BufferTooSmall else PayloadTooLarge)
    else if Space(p, v) <= room then Success(|Encoded(p, v)|)
    else if Panics(p, v, room) then Failure(SliceOutOfRange)
    else Failure(BufferTooSmall)
  }

  lemma TriedMeans(p: Packet, v: Version, room: nat)
    ensures Tried(p, v, room).Success? <==> LengthsFit(p) && Space(p, v) <= room
    ensures Tried(p, v, room) == Failure(SliceOutOfRange) <==> Panics(p, v, room)
  {
    ShapeFits(p, v);
    hide ShapeOf, LengthsFit, Encoded, Body;
  }

  /**
   How much room an encoder needs: the pings their two bytes, every other packet five bytes beside its body, of which a
   short length leaves some unused. With less room the buffer is too small.
   */
  lemma EncodesIff(p: Packet, v: Version, room: nat)
    requires Sendable(p, v) && LengthsFit(p) && !p.Disconnect?
    ensures var needed := if p.PingReq? || p.PingResp? then 2 else 5 + |Body(p, v)|;
            Tried(p, v, room) == if needed <= room then Success(|Encoded(p, v)|) else Failure(BufferTooSmall)
  {
    VarInt.EncodingLength(|Body(p, v)|);
    ShapeFits(p, v);
    BodyIsEmptyOnlyInDisconnect(p, v);
    hide ShapeOf, Encoded, Body, LengthsFit;
  }

  /** A packet with a text too long for its prefix is never encoded, and no other packet is refused for its texts. */
  lemma TooLongIsReported(p: Packet, v: Version, room: nat)
    ensures !LengthsFit(p) ==> Tried(p, v, room) in {Failure(BufferTooSmall), Failure(PayloadTooLarge)}
    ensures LengthsFit(p) ==> Tried(p, v, room) != Failure(PayloadTooLarge)
  {
    ShapeFits(p, v);
    hide ShapeOf, Encoded, Body, Space, Panics, LengthsFit;
  }

  /** A PUBLISH says so as soon as it gets past the header, for the topic comes first. */
  lemma LongTopicIsReported(p: Packet, v: Version, room: nat)
    requires p.Publish? && |p.topic| > 0xFFFF
    ensures Tried(p, v, room) == Failure(if room < 5 then BufferTooSmall else PayloadTooLarge)
  {
    LongTopicSpoils(p, v);
    hide ShapeOf, Encoded, Body, Space, Panics;
  }

  lemma LongTopicSpoils(p: Packet, v: Version)
    requires p.Publish? && |p.topic| > 0xFFFF
    ensures ShapeOf(p, v).spoiled == Some(0)
  {
    hide PacketIdBytes, PropertyField;
  }

  // ---- A frame under construction ----

  /** What has been written: bytes before the slice, the first byte, and the body so far behind the reserve. */
  ghost predicate Drafted(s: seq<byte>, lo: nat, cursor: nat, prefix: seq<byte>, first: byte, body: seq<byte>) {
    && lo < |s| && s[..lo] == prefix && s[lo] == first
    && cursor == lo + 5 + |body|
    && (body != [] ==> cursor <= |s| && s[lo + 5..cursor] == body)
  }

  lemma Extended(s: seq<byte>, t: seq<byte>, lo: nat, cursor: nat, prefix: seq<byte>, first: byte, body: seq<byte>,
                 data: seq<byte>)
    requires Drafted(s, lo, cursor, prefix, first, body)
    requires |t| == |s| && cursor + |data| <= |t| && t[cursor..cursor + |data|] == data
    requires forall i :: 0 <= i < cursor ==> t[i] == s[i]
    ensures Drafted(t, lo, cursor + |data|, prefix, first, body + data)
  {
    assert t[..lo] == s[..lo];
    assert t[lo + 5..cursor] == body by {
      if body != [] {
        assert t[lo + 5..cursor] == s[lo + 5..cursor];
      }
    }
    assert t[lo + 5..cursor + |data|] == t[lo + 5..cursor] + t[cursor..cursor + |data|];
  }

  lemma DraftedPrefix(s: seq<byte>, lo: nat, cursor: nat, prefix: seq<byte>, first: byte, body: seq<byte>)
    requires Drafted(s, lo, cursor, prefix, first, body)
    ensures lo < |s| && s[..lo] == prefix && cursor == lo + 5 + |body| && (body != [] ==> cursor <= |s|)
  {
  }

  method Begin(buf: array<byte>, lo: nat, first: byte) returns (r: Result<nat, PacketError>)
    requires lo <= buf.Length
    modifies buf
    ensures r == if lo < buf.Length then Success(lo + 5) else Failure(BufferTooSmall)
    ensures buf[..lo] == old(buf[..lo])
    ensures r.Success? ==> Drafted(buf[..], lo, r.value, buf[..lo], first, [])
  {
    var c :- PutByte(buf, lo, first);
    return Success(c + 4);
  }

  method AddByte(buf: array<byte>, cursor: nat, b: byte,
                 ghost lo: nat, ghost prefix: seq<byte>, ghost first: byte, ghost body: seq<byte>)
    returns (r: Result<nat, PacketError>)
    requires Drafted(buf[..], lo, cursor, prefix, first, body)
    modifies buf
    ensures r == if cursor + 1 <= buf.Length then Success(cursor + 1) else Failure(BufferTooSmall)
    ensures r.Success? ==> Drafted(buf[..], lo, r.value, prefix, first, body + [b])
    ensures lo < buf.Length && buf[..lo] == prefix
  {
    ghost var before := buf[..];
    r := PutByte(buf, cursor, b);
    assert buf[..lo] == before[..lo];
    if r.Success? {
      Extended(before, buf[..], lo, cursor, prefix, first, body, [b]);
    }
  }

  method AddBytes(buf: array<byte>, cursor: nat, data: seq<byte>,
                  ghost lo: nat, ghost prefix: seq<byte>, ghost first: byte, ghost body: seq<byte>)
    returns (r: Result<nat, PacketError>)
    requires Drafted(buf[..], lo, cursor, prefix, first, body)
    modifies buf
    ensures r == if cursor + |data| <= buf.Length then Success(cursor + |data|) else Failure(BufferTooSmall)
    ensures r.Success? ==> Drafted(buf[..], lo, r.value, prefix, first, body + data)
    ensures lo < buf.Length && buf[..lo] == prefix
  {
    ghost var before := buf[..];
    r := PutBytes(buf, cursor, data);
    assert buf[..lo] == before[..lo];
    if r.Success? {
      Extended(before, buf[..], lo, cursor, prefix, first, body, data);
    }
  }

  method AddPrefixed(buf: array<byte>, cursor: nat, s: seq<byte>,
                     ghost lo: nat, ghost prefix: seq<byte>, ghost first: byte, ghost body: seq<byte>)
    returns (r: Result<nat, PacketError>)
    requires Drafted(buf[..], lo, cursor, prefix, first, body)
    modifies buf
    ensures r == Writes(TextShape(s), buf.Length, cursor)
    ensures r.Success? ==> Drafted(buf[..], lo, r.value, prefix, first, body + Prefixed(s))
    ensures lo < buf.Length && buf[..lo] == prefix
  {
    ghost var before := buf[..];
    r := PutPrefixed(buf, cursor, s);
    assert buf[..lo] == before[..lo];
    if r.Success? {
      Extended(before, buf[..], lo, cursor, prefix, first, body, Prefixed(s));
    }
  }

  /** `if version == V5 { write_properties(..) }`. */
  method AddProperties(buf: array<byte>, cursor: nat, ps: seq<Property>, v: Version,
                       ghost lo: nat, ghost prefix: seq<byte>, ghost first: byte, ghost body: seq<byte>)
    returns (r: Result<nat, PacketError>)
    requires Drafted(buf[..], lo, cursor, prefix, first, body)
    modifies buf
    ensures r == Writes(Plain(|PropertyField(ps, v)|), buf.Length, cursor)
    ensures r.Success? ==> Drafted(buf[..], lo, r.value, prefix, first, body + PropertyField(ps, v))
    ensures lo < buf.Length && buf[..lo] == prefix
  {
    if v != V5 {
      assert body + [] == body;
      return Success(cursor);
    }
    ghost var before := buf[..];
    r := WriteProperties(buf, cursor, ps);
    assert buf[..lo] == before[..lo];
    if r.Success? {
      Extended(before, buf[..], lo, cursor, prefix, first, body, Block(ps));
    }
  }

  /** Writes the true length and shifts the body behind it (`copy_within`). */
  method Finish(buf: array<byte>, lo: nat, cursor: nat,
                ghost prefix: seq<byte>, ghost first: byte, ghost body: seq<byte>)
    returns (r: Result<nat, PacketError>)
    requires Drafted(buf[..], lo, cursor, prefix, first, body)
    modifies buf
    ensures r == if lo + FrameSpace(body) <= buf.Length then Success(|Frame(first, body)|)
                 else if ShiftPanics(body, buf.Length - lo) then Failure(SliceOutOfRange)
                 else Failure(BufferTooSmall)
    ensures r.Success? ==> lo + r.value <= buf.Length && buf[lo..lo + r.value] == Frame(first, body)
    ensures lo < buf.Length && buf[..lo] == prefix
  {
    hide *;
    DraftedPrefix(buf[..], lo, cursor, prefix, first, body);
    FinishEnds(lo, first, body, buf.Length);
    var contentStart := lo + 5;
    var remaining := cursor - contentStart;
    var lenBytes := WriteLength(buf, lo, remaining, prefix, first, body);
    if lenBytes.Failure? {
      return lenBytes;
    }
    var header := 1 + lenBytes.value;
    if cursor > buf.Length || lo + header + remaining > buf.Length {
      return Failure(SliceOutOfRange);
    }
    MoveBody(buf, lo, contentStart, cursor, lo + header);
    UnfoldFrame(first, body);
    return Success(header + remaining);
  }

  /** The body moves behind the first byte and the length. */
  method MoveBody(buf: array<byte>, lo: nat, src: nat, end: nat, dst: nat)
    requires lo <= dst && src <= end <= buf.Length && dst + (end - src) <= buf.Length
    modifies buf
    ensures buf[..lo] == old(buf[..lo])
    ensures buf[lo..dst + (end - src)] == old(buf[lo..dst]) + old(buf[src..end])
  {
    hide *;
    ghost var before := buf[..];
    CopyWithin(buf, src, end, dst);
    SameFront(before, buf[..], lo, dst);
    Joins(buf[..], lo, dst, dst + (end - src));
  }

  /** How the last step of an encoder ends, by the room behind `lo`. */
  lemma FinishEnds(lo: nat, first: byte, body: seq<byte>, capacity: nat)
    requires lo <= capacity && (body != [] ==> lo + 5 + |body| <= capacity)
    ensures var length := |VarInt.Encoding(|body|)|;
            && (capacity < lo + 1 + length ==>
                  capacity < lo + FrameSpace(body) && !ShiftPanics(body, capacity - lo))
            && (lo + 1 + length <= capacity ==>
                  if capacity < lo + 5 + |body| || capacity < lo + 1 + length + |body|
                  then capacity < lo + FrameSpace(body) && ShiftPanics(body, capacity - lo)
                  else lo + FrameSpace(body) <= capacity)
            && |Frame(first, body)| == 1 + length + |body|
  {
    VarInt.EncodingLength(|body|);
    VarInt.EncodingIsShort(|body|);
    assert |VarInt.Encoding(|body|)| > 0;
    hide VarInt.Encoding, Overrun;
  }

  lemma SameFront(s: seq<byte>, t: seq<byte>, lo: nat, mid: nat)
    requires |s| == |t| && lo <= mid <= |s| && forall k :: 0 <= k < mid ==> t[k] == s[k]
    ensures t[..lo] == s[..lo] && t[lo..mid] == s[lo..mid]
  {
  }

  lemma UnfoldFrame(first: byte, body: seq<byte>)
    ensures Frame(first, body) == [first] + VarInt.Encoding(|body|) + Overrun(VarInt.Encoding(|body|), body)
  {
  }

  /** `write_variable_byte_integer_len` into the reserved bytes, and on into the body when they do not suffice. */
  method WriteLength(buf: array<byte>, lo: nat, remaining: nat,
                     ghost prefix: seq<byte>, ghost first: byte, ghost body: seq<byte>)
    returns (r: Result<nat, PacketError>)
    requires Drafted(buf[..], lo, lo + 5 + remaining, prefix, first, body)
    modifies buf
    ensures r == if lo + 1 + |VarInt.Encoding(remaining)| <= buf.Length then Success(|VarInt.Encoding(remaining)|)
                 else Failure(BufferTooSmall)
    ensures r.Success? ==> buf[lo..lo + 1 + r.value] == [first] + VarInt.Encoding(remaining)
    ensures r.Success? && lo + 5 + remaining <= buf.Length ==>
              buf[lo + 5..lo + 5 + remaining] == Overrun(VarInt.Encoding(remaining), body)
    ensures lo < buf.Length && buf[..lo] == prefix
  {
    VarInt.EncodingIsShort(remaining);
    ghost var before, length := buf[..], VarInt.Encoding(remaining);
    r := VarInt.WriteVariableByteIntegerLen(buf, lo + 1, remaining);
    assert buf[..lo] == before[..lo];
    if r.Success? {
      assert buf[lo..lo + 1 + r.value] == [buf[lo]] + buf[lo + 1..lo + 1 + r.value];
      if lo + 5 + remaining <= buf.Length {
        LengthOverruns(before, buf[..], lo, length, body);
      }
    }
  }

  lemma LengthOverruns(before: seq<byte>, after: seq<byte>, lo: nat, length: seq<byte>, body: seq<byte>)
    requires |before| == |after| && lo + 5 + |body| <= |after| && |length| <= 4 + |body|
    requires before[lo + 5..lo + 5 + |body|] == body && after[lo + 1..lo + 1 + |length|] == length
    requires forall i :: 0 <= i < |after| && !(lo + 1 <= i < lo + 1 + |length|) ==> after[i] == before[i]
    ensures after[lo + 5..lo + 5 + |body|] == Overrun(length, body)
  {
    var r := after[lo + 5..lo + 5 + |body|];
    forall k | 0 <= k < |body| ensures r[k] == Overrun(length, body)[k] {
      if 4 + k < |length| {
        assert r[k] == after[lo + 1..lo + 1 + |length|][4 + k];
      } else {
        assert r[k] == before[lo + 5..lo + 5 + |body|][k];
      }
    }
  }

  // ---- Variable headers and payloads ----

  method PublishBody(p: Packet, v: Version, buf: array<byte>, start: nat,
                     ghost lo: nat, ghost prefix: seq<byte>, ghost first: byte)
    returns (r: Result<nat, PacketError>)
    requires p.Publish? && Drafted(buf[..], lo, start, prefix, first, [])
    modifies buf
    ensures r == Writes(ShapeOf(p, v), buf.Length, start)
    ensures r.Success? ==> Drafted(buf[..], lo, r.value, prefix, first, Body(p, v))
    ensures lo < buf.Length && buf[..lo] == prefix
  {
    hide *;
    ghost var topic, id, props := Prefixed(p.topic), PacketIdBytes(p.qos, p.packetId), PropertyField(p.properties, v);
    DraftedPrefix(buf[..], lo, start, prefix, first, []);
    PublishWrites(p, v, buf.Length, start);
    UnfoldPublishBody(p, v);
    r := AddPrefixed(buf, start, p.topic, lo, prefix, first, []);
    assert [] + topic == topic;
    if r.Failure? {
      return r;
    }
    r := AddPacketId(buf, r.value, p.qos, p.packetId, lo, prefix, first, topic);
    if r.Failure? {
      return r;
    }
    PlainWrites(|props|, buf.Length, r.value);
    r := AddProperties(buf, r.value, p.properties, v, lo, prefix, first, topic + id);
    if r.Failure? {
      return r;
    }
    r := AddBytes(buf, r.value, p.payload, lo, prefix, first, topic + id + props);
  }

  lemma UnfoldPublishBody(p: Packet, v: Version)
    requires p.Publish?
    ensures Body(p, v)
         == Prefixed(p.topic) + PacketIdBytes(p.qos, p.packetId) + PropertyField(p.properties, v) + p.payload
  {
    hide PacketIdBytes, PropertyField, Prefixed;
  }

  /** `if self.qos != QoS::AtMostOnce`; a missing identifier is written as 1. */
  method AddPacketId(buf: array<byte>, cursor: nat, qos: QoS, packetId: Option<u16>,
                     ghost lo: nat, ghost prefix: seq<byte>, ghost first: byte, ghost body: seq<byte>)
    returns (r: Result<nat, PacketError>)
    requires Drafted(buf[..], lo, cursor, prefix, first, body) && cursor <= buf.Length
    modifies buf
    ensures var id := PacketIdBytes(qos, packetId);
            && r == (if cursor + |id| <= buf.Length then Success(cursor + |id|) else Failure(BufferTooSmall))
            && (r.Success? ==> Drafted(buf[..], lo, r.value, prefix, first, body + id))
    ensures lo < buf.Length && buf[..lo] == prefix
  {
    DraftedPrefix(buf[..], lo, cursor, prefix, first, body);
    hide Drafted, BigEndian16;
    if qos == AtMostOnce {
      assert body + [] == body;
      return Success(cursor);
    }
    var pid := if packetId.Some? then packetId.value else 1;
    r := AddBytes(buf, cursor, BigEndian16(pid), lo, prefix, first, body);
  }

  lemma PlainWrites(size: nat, capacity: nat, cursor: nat)
    ensures Writes(Plain(size), capacity, cursor)
         == if size == 0 || cursor + size <= capacity then Success(cursor + size) else Failure(BufferTooSmall)
  {
  }

  lemma PublishWrites(p: Packet, v: Version, capacity: nat, start: nat)
    requires p.Publish?
    ensures var topic := Writes(TextShape(p.topic), capacity, start);
            var rest := |PacketIdBytes(p.qos, p.packetId)| + |PropertyField(p.properties, v)| + |p.payload|;
            && (topic.Success? ==> topic.value <= capacity)
            && Writes(ShapeOf(p, v), capacity, start)
               == if topic.Failure? then topic
                  else if topic.value + rest <= capacity then Success(topic.value + rest) else Failure(BufferTooSmall)
  {
    var id, props := PacketIdBytes(p.qos, p.packetId), PropertyField(p.properties, v);
    var a, b := TextShape(p.topic), Plain(|id + props + p.payload|);
    assert ShapeOf(p, v) == Then(a, b);
    WritesThen(a, b, capacity, start);
    hide PacketIdBytes, PropertyField, ShapeOf;
  }

  method ConnAckBody(p: Packet, v: Version, buf: array<byte>, start: nat,
                     ghost lo: nat, ghost prefix: seq<byte>, ghost first: byte)
    returns (r: Result<nat, PacketError>)
    requires p.ConnAck? && Drafted(buf[..], lo, start, prefix, first, [])
    modifies buf
    ensures r == Writes(ShapeOf(p, v), buf.Length, start)
    ensures r.Success? ==> Drafted(buf[..], lo, r.value, prefix, first, Body(p, v))
    ensures lo < buf.Length && buf[..lo] == prefix
  {
    hide Drafted, Block;
    var flags: byte := if p.sessionPresent then 0x01 else 0x00;
    assert Body(p, v) == [] + [flags] + [p.reasonCode] + PropertyField(p.properties, v);
    hide Body, PropertyField;
    var cursor :- AddByte(buf, start, flags, lo, prefix, first, []);
    cursor :- AddByte(buf, cursor, p.reasonCode, lo, prefix, first, [] + [flags]);
    r := AddProperties(buf, cursor, p.properties, v, lo, prefix, first, [] + [flags] + [p.reasonCode]);
  }

  /** `if version == V5 && (!properties.is_empty() || reason_code != 0)`, at the end of several bodies. */
  method AddReason(buf: array<byte>, cursor: nat, reason: byte, ps: seq<Property>, v: Version,
                   ghost lo: nat, ghost prefix: seq<byte>, ghost first: byte, ghost body: seq<byte>)
    returns (r: Result<nat, PacketError>)
    requires Drafted(buf[..], lo, cursor, prefix, first, body)
    modifies buf
    ensures r == Writes(Plain(|ReasonBytes(reason, ps, v)|), buf.Length, cursor)
    ensures r.Success? ==> Drafted(buf[..], lo, r.value, prefix, first, body + ReasonBytes(reason, ps, v))
    ensures lo < buf.Length && buf[..lo] == prefix
  {
    hide Drafted, Block;
    assert body + [] == body;
    if v == V5 && (ps != [] || reason != 0) {
      assert body + ReasonBytes(reason, ps, v) == body + [reason] + Block(ps);
      hide ReasonBytes;
      var c :- AddByte(buf, cursor, reason, lo, prefix, first, body);
      r := AddProperties(buf, c, ps, v, lo, prefix, first, body + [reason]);
    } else {
      DraftedPrefix(buf[..], lo, cursor, prefix, first, body);
      r := Success(cursor);
    }
  }

  /** The body of the four acknowledgements (`impl_ack_packet!`). */
  method AckBody(p: Packet, a: Ack, v: Version, buf: array<byte>, start: nat,
                 ghost lo: nat, ghost prefix: seq<byte>, ghost first: byte)
    returns (r: Result<nat, PacketError>)
    requires p in {PubAck(a), PubRec(a), PubRel(a), PubComp(a)} && Drafted(buf[..], lo, start, prefix, first, [])
    modifies buf
    ensures r == Writes(ShapeOf(p, v), buf.Length, start)
    ensures r.Success? ==> Drafted(buf[..], lo, r.value, prefix, first, Body(p, v))
    ensures lo < buf.Length && buf[..lo] == prefix
  {
    hide Drafted, BigEndian16, Block;
    assert Body(p, v) == [] + BigEndian16(a.packetId) + ReasonBytes(a.reasonCode, a.properties, v);
    hide Body, ReasonBytes;
    var cursor :- AddBytes(buf, start, BigEndian16(a.packetId), lo, prefix, first, []);
    r := AddReason(buf, cursor, a.reasonCode, a.properties, v, lo, prefix, first, [] + BigEndian16(a.packetId));
  }

  method DisconnectBody(p: Packet, v: Version, buf: array<byte>, start: nat,
                        ghost lo: nat, ghost prefix: seq<byte>, ghost first: byte)
    returns (r: Result<nat, PacketError>)
    requires p.Disconnect? && Drafted(buf[..], lo, start, prefix, first, [])
    modifies buf
    ensures r == Writes(ShapeOf(p, v), buf.Length, start)
    ensures r.Success? ==> Drafted(buf[..], lo, r.value, prefix, first, Body(p, v))
    ensures lo < buf.Length && buf[..lo] == prefix
  {
    hide Drafted, Block;
    assert [] + Body(p, v) == Body(p, v);
    r := AddReason(buf, start, p.disconnectReason, p.properties, v, lo, prefix, first, []);
  }

  /** Packet id and properties, which open the bodies below. */
  method AddIdAndProperties(buf: array<byte>, start: nat, id: u16, ps: seq<Property>, v: Version,
                            ghost lo: nat, ghost prefix: seq<byte>, ghost first: byte)
    returns (r: Result<nat, PacketError>)
    requires Drafted(buf[..], lo, start, prefix, first, [])
    modifies buf
    ensures r == Writes(Plain(|BigEndian16(id) + PropertyField(ps, v)|), buf.Length, start)
    ensures r.Success? ==> Drafted(buf[..], lo, r.value, prefix, first, BigEndian16(id) + PropertyField(ps, v))
    ensures lo < buf.Length && buf[..lo] == prefix
  {
    hide Drafted, BigEndian16, Block;
    var cursor :- AddBytes(buf, start, BigEndian16(id), lo, prefix, first, []);
    assert [] + BigEndian16(id) == BigEndian16(id);
    r := AddProperties(buf, cursor, ps, v, lo, prefix, first, BigEndian16(id));
  }

  method AddFilter(buf: array<byte>, cursor: nat, topic: seq<byte>, qos: QoS,
                   ghost lo: nat, ghost prefix: seq<byte>, ghost first: byte, ghost body: seq<byte>)
    returns (r: Result<nat, PacketError>)
    requires Drafted(buf[..], lo, cursor, prefix, first, body)
    modifies buf
    ensures r == Writes(Then(TextShape(topic), Plain(1)), buf.Length, cursor)
    ensures r.Success? ==> Drafted(buf[..], lo, r.value, prefix, first, body + (Prefixed(topic) + [QoSBits(qos)]))
    ensures lo < buf.Length && buf[..lo] == prefix
  {
    hide Drafted, Prefixed;
    var c :- AddPrefixed(buf, cursor, topic, lo, prefix, first, body);
    r := AddByte(buf, c, QoSBits(qos), lo, prefix, first, body + Prefixed(topic));
    assert body + Prefixed(topic) + [QoSBits(qos)] == body + (Prefixed(topic) + [QoSBits(qos)]);
  }

  /** The loop of SUBSCRIBE's encoder, behind `head`. */
  method AddFilters(buf: array<byte>, start: nat, filters: seq<(seq<byte>, QoS)>,
                    ghost lo: nat, ghost prefix: seq<byte>, ghost first: byte, ghost head: seq<byte>)
    returns (r: Result<nat, PacketError>)
    requires Drafted(buf[..], lo, start, prefix, first, head)
    modifies buf
    ensures r == Writes(FiltersShape(filters), buf.Length, start)
    ensures r.Success? ==> Drafted(buf[..], lo, r.value, prefix, first, head + FilterBytes(filters))
    ensures lo < buf.Length && buf[..lo] == prefix
  {
    DraftedPrefix(buf[..], lo, start, prefix, first, head);
    hide *;
    ghost var done: seq<byte> := [];
    var cursor := start;
    assert filters[0..] == filters && head + [] == head;
    for i := 0 to |filters|
      invariant Writes(FiltersShape(filters), buf.Length, start)
             == Writes(FiltersShape(filters[i..]), buf.Length, cursor)
      invariant done + FilterBytes(filters[i..]) == FilterBytes(filters)
      invariant Drafted(buf[..], lo, cursor, prefix, first, head + done)
      invariant lo < buf.Length && buf[..lo] == prefix
    {
      var (topic, qos) := filters[i];
      ghost var entry: seq<byte>, later := Prefixed(topic) + [QoSBits(qos)], FilterBytes(filters[i + 1..]);
      FilterBytesSplit(filters, i);
      FiltersShapeSplit(filters, i, buf.Length, cursor);
      Associative(done, entry, later);
      r := AddFilter(buf, cursor, topic, qos, lo, prefix, first, head + done);
      if r.Failure? {
        return r;
      }
      cursor := r.value;
      Associative(head, done, entry);
      done := done + entry;
    }
    assert filters[|filters|..] == [];
    NothingToAdd(done, buf.Length, cursor);
    return Success(cursor);
  }

  lemma NothingToAdd(done: seq<byte>, capacity: nat, cursor: nat)
    ensures done + FilterBytes([]) == done && done + TopicBytes([]) == done
    ensures Writes(FiltersShape([]), capacity, cursor) == Success(cursor)
    ensures Writes(TopicsShape([]), capacity, cursor) == Success(cursor)
  {
    assert done + [] == done;
  }

  lemma FiltersShapeSplit(filters: seq<(seq<byte>, QoS)>, i: nat, capacity: nat, cursor: nat)
    requires i < |filters|
    ensures var one := Writes(Then(TextShape(filters[i].0), Plain(1)), capacity, cursor);
            Writes(FiltersShape(filters[i..]), capacity, cursor)
            == if one.Failure? then one else Writes(FiltersShape(filters[i + 1..]), capacity, one.value)
  {
    assert filters[i..][1..] == filters[i + 1..];
    WritesThen(Then(TextShape(filters[i].0), Plain(1)), FiltersShape(filters[i + 1..]), capacity, cursor);
    hide Writes, Then, TextShape;
  }

  lemma FilterBytesSplit(filters: seq<(seq<byte>, QoS)>, i: nat)
    requires i < |filters|
    ensures FilterBytes(filters[i..])
         == Prefixed(filters[i].0) + [QoSBits(filters[i].1)] + FilterBytes(filters[i + 1..])
  {
    assert filters[i..][1..] == filters[i + 1..];
  }

  method SubscribeBody(p: Packet, v: Version, buf: array<byte>, start: nat,
                       ghost lo: nat, ghost prefix: seq<byte>, ghost first: byte)
    returns (r: Result<nat, PacketError>)
    requires p.Subscribe? && Drafted(buf[..], lo, start, prefix, first, [])
    modifies buf
    ensures r == Writes(ShapeOf(p, v), buf.Length, start)
    ensures r.Success? ==> Drafted(buf[..], lo, r.value, prefix, first, Body(p, v))
    ensures lo < buf.Length && buf[..lo] == prefix
  {
    hide Drafted, BigEndian16, PropertyField, FilterBytes;
    ghost var head := BigEndian16(p.subscribeId) + PropertyField(p.properties, v);
    assert Body(p, v) == head + FilterBytes(p.filters);
    var cursor :- AddIdAndProperties(buf, start, p.subscribeId, p.properties, v, lo, prefix, first);
    r := AddFilters(buf, cursor, p.filters, lo, prefix, first, head);
  }

  method UnsubscribeBody(p: Packet, v: Version, buf: array<byte>, start: nat,
                         ghost lo: nat, ghost prefix: seq<byte>, ghost first: byte)
    returns (r: Result<nat, PacketError>)
    requires p.Unsubscribe? && Drafted(buf[..], lo, start, prefix, first, [])
    modifies buf
    ensures r == Writes(ShapeOf(p, v), buf.Length, start)
    ensures r.Success? ==> Drafted(buf[..], lo, r.value, prefix, first, Body(p, v))
    ensures lo < buf.Length && buf[..lo] == prefix
  {
    hide Drafted, BigEndian16, PropertyField, TopicBytes;
    ghost var head := BigEndian16(p.unsubscribeId) + PropertyField(p.properties, v);
    assert Body(p, v) == head + TopicBytes(p.topics);
    var cursor :- AddIdAndProperties(buf, start, p.unsubscribeId, p.properties, v, lo, prefix, first);
    r := AddTopics(buf, cursor, p.topics, lo, prefix, first, head);
  }

  method AddTopics(buf: array<byte>, start: nat, topics: seq<seq<byte>>,
                   ghost lo: nat, ghost prefix: seq<byte>, ghost first: byte, ghost head: seq<byte>)
    returns (r: Result<nat, PacketError>)
    requires Drafted(buf[..], lo, start, prefix, first, head)
    modifies buf
    ensures r == Writes(TopicsShape(topics), buf.Length, start)
    ensures r.Success? ==> Drafted(buf[..], lo, r.value, prefix, first, head + TopicBytes(topics))
    ensures lo < buf.Length && buf[..lo] == prefix
  {
    DraftedPrefix(buf[..], lo, start, prefix, first, head);
    hide *;
    ghost var done: seq<byte> := [];
    var cursor := start;
    assert topics[0..] == topics && head + [] == head;
    for i := 0 to |topics|
      invariant Writes(TopicsShape(topics), buf.Length, start) == Writes(TopicsShape(topics[i..]), buf.Length, cursor)
      invariant done + TopicBytes(topics[i..]) == TopicBytes(topics)
      invariant Drafted(buf[..], lo, cursor, prefix, first, head + done)
      invariant lo < buf.Length && buf[..lo] == prefix
    {
      ghost var entry, later := Prefixed(topics[i]), TopicBytes(topics[i + 1..]);
      TopicBytesSplit(topics, i);
      TopicsShapeSplit(topics, i, buf.Length, cursor);
      Associative(done, entry, later);
      r := AddPrefixed(buf, cursor, topics[i], lo, prefix, first, head + done);
      if r.Failure? {
        return r;
      }
      cursor := r.value;
      Associative(head, done, entry);
      done := done + entry;
    }
    assert topics[|topics|..] == [];
    NothingToAdd(done, buf.Length, cursor);
    return Success(cursor);
  }

  lemma TopicsShapeSplit(topics: seq<seq<byte>>, i: nat, capacity: nat, cursor: nat)
    requires i < |topics|
    ensures var one := Writes(TextShape(topics[i]), capacity, cursor);
            Writes(TopicsShape(topics[i..]), capacity, cursor)
            == if one.Failure? then one else Writes(TopicsShape(topics[i + 1..]), capacity, one.value)
  {
    assert topics[i..][1..] == topics[i + 1..];
    WritesThen(TextShape(topics[i]), TopicsShape(topics[i + 1..]), capacity, cursor);
    hide Writes, Then, TextShape;
  }

  lemma TopicBytesSplit(topics: seq<seq<byte>>, i: nat)
    requires i <= |topics|
    ensures i < |topics| ==>
              && TopicBytes(topics[i..]) == Prefixed(topics[i]) + TopicBytes(topics[i + 1..])
              && |Prefixed(topics[i])| == 2 + |topics[i]|
    ensures TopicBytes(topics[|topics|..]) == []
  {
    if i < |topics| {
      assert topics[i..][1..] == topics[i + 1..];
    }
  }

  /** The body of SUBACK and UNSUBACK. */
  method CodesBody(p: Packet, v: Version, buf: array<byte>, start: nat,
                   ghost lo: nat, ghost prefix: seq<byte>, ghost first: byte)
    returns (r: Result<nat, PacketError>)
    requires (p.SubAck? || p.UnsubAck?) && Drafted(buf[..], lo, start, prefix, first, [])
    modifies buf
    ensures r == Writes(ShapeOf(p, v), buf.Length, start)
    ensures r.Success? ==> Drafted(buf[..], lo, r.value, prefix, first, Body(p, v))
    ensures lo < buf.Length && buf[..lo] == prefix
  {
    hide Drafted, BigEndian16, PropertyField;
    ghost var head := BigEndian16(p.ackedId) + PropertyField(p.properties, v);
    assert Body(p, v) == head + p.reasonCodes;
    hide Body;
    var cursor :- AddIdAndProperties(buf, start, p.ackedId, p.properties, v, lo, prefix, first);
    assert head + [] == head;
    for i := 0 to |p.reasonCodes|
      invariant cursor == start + |head| + i && cursor <= buf.Length
      invariant Drafted(buf[..], lo, cursor, prefix, first, head + p.reasonCodes[..i])
      invariant lo < buf.Length && buf[..lo] == prefix
    {
      cursor :- AddByte(buf, cursor, p.reasonCodes[i], lo, prefix, first, head + p.reasonCodes[..i]);
      assert head + p.reasonCodes[..i] + [p.reasonCodes[i]] == head + p.reasonCodes[..i + 1];
    }
    assert p.reasonCodes[..|p.reasonCodes|] == p.reasonCodes;
    return Success(cursor);
  }

  method AddOptional(buf: array<byte>, cursor: nat, text: Option<seq<byte>>,
                     ghost lo: nat, ghost prefix: seq<byte>, ghost first: byte, ghost body: seq<byte>)
    returns (r: Result<nat, PacketError>)
    requires Drafted(buf[..], lo, cursor, prefix, first, body)
    modifies buf
    ensures r == Writes(OptionalShape(text), buf.Length, cursor)
    ensures r.Success? ==> Drafted(buf[..], lo, r.value, prefix, first, body + OptionalText(text))
    ensures lo < buf.Length && buf[..lo] == prefix
  {
    DraftedPrefix(buf[..], lo, cursor, prefix, first, body);
    hide Drafted, Prefixed;
    match text
    case None =>
      assert body + [] == body;
      r := Success(cursor);
    case Some(s) =>
      r := AddPrefixed(buf, cursor, s, lo, prefix, first, body);
  }

  method AddWill(buf: array<byte>, cursor: nat, w: Will, v: Version,
                 ghost lo: nat, ghost prefix: seq<byte>, ghost first: byte, ghost body: seq<byte>)
    returns (r: Result<nat, PacketError>)
    requires Drafted(buf[..], lo, cursor, prefix, first, body)
    modifies buf
    ensures r == Writes(WillShape(Some(w), v), buf.Length, cursor)
    ensures r.Success? ==> Drafted(buf[..], lo, r.value, prefix, first, body + WillBytes(Some(w), v))
    ensures lo < buf.Length && buf[..lo] == prefix
  {
    hide Drafted, Prefixed, PropertyField;
    ghost var props, topic, payload := PropertyField(w.properties, v), Prefixed(w.topic), Prefixed(w.payload);
    assert WillBytes(Some(w), v) == props + topic + payload;
    ghost var a := Then(Plain(|props|), TextShape(w.topic));
    WritesThen(Plain(|props|), TextShape(w.topic), buf.Length, cursor);
    WritesThen(a, TextShape(w.payload), buf.Length, cursor);
    hide WillBytes, Writes, TextShape;
    var c :- AddProperties(buf, cursor, w.properties, v, lo, prefix, first, body);
    c :- AddPrefixed(buf, c, w.topic, lo, prefix, first, body + props);
    r := AddPrefixed(buf, c, w.payload, lo, prefix, first, body + props + topic);
    assert body + props + topic + payload == body + (props + topic + payload);
  }

  /** `if let Some(ref will) = self.will`. */
  method AddOptionalWill(buf: array<byte>, cursor: nat, will: Option<Will>, v: Version,
                         ghost lo: nat, ghost prefix: seq<byte>, ghost first: byte, ghost body: seq<byte>)
    returns (r: Result<nat, PacketError>)
    requires Drafted(buf[..], lo, cursor, prefix, first, body)
    modifies buf
    ensures r == Writes(WillShape(will, v), buf.Length, cursor)
    ensures r.Success? ==> Drafted(buf[..], lo, r.value, prefix, first, body + WillBytes(will, v))
    ensures lo < buf.Length && buf[..lo] == prefix
  {
    DraftedPrefix(buf[..], lo, cursor, prefix, first, body);
    hide Drafted, Prefixed, PropertyField;
    match will
    case None =>
      assert body + [] == body;
      r := Success(cursor);
    case Some(w) =>
      r := AddWill(buf, cursor, w, v, lo, prefix, first, body);
  }

  /** Protocol name, level, flags and keep-alive: ten bytes. */
  method ConnectFlagsByte(p: Packet) returns (flags: byte)
    requires p.Connect?
    ensures flags == ConnectFlags(p.cleanSession, p.username.Some?, p.password.Some?, p.will)
  {
    flags := 0;
    if p.cleanSession {
      flags := flags + 0x02;
    }
    if p.will.Some? {
      flags := flags + 0x04 + 8 * QoSBits(p.will.value.qos);
      if p.will.value.retain {
        flags := flags + 0x20;
      }
    }
    if p.password.Some? {
      flags := flags + 0x40;
    }
    if p.username.Some? {
      flags := flags + 0x80;
    }
  }

  method AddConnectHead(p: Packet, v: Version, buf: array<byte>, start: nat,
                        ghost lo: nat, ghost prefix: seq<byte>, ghost first: byte)
    returns (r: Result<nat, PacketError>)
    requires p.Connect? && Drafted(buf[..], lo, start, prefix, first, [])
    modifies buf
    ensures r == Writes(Plain(|ConnectHead(p, v)|), buf.Length, start)
    ensures r.Success? ==> Drafted(buf[..], lo, r.value, prefix, first, ConnectHead(p, v))
    ensures lo < buf.Length && buf[..lo] == prefix
  {
    hide Drafted, Prefixed, BigEndian16;
    var flags := ConnectFlagsByte(p);
    hide ConnectFlags;
    ghost var name := Prefixed(PROTOCOL_NAME);
    assert ConnectHead(p, v) == [] + name + [LevelOf(v)] + [flags] + BigEndian16(p.keepAlive);
    hide ConnectHead;
    var cursor :- AddPrefixed(buf, start, PROTOCOL_NAME, lo, prefix, first, []);
    cursor :- AddByte(buf, cursor, LevelOf(v), lo, prefix, first, [] + name);
    cursor :- AddByte(buf, cursor, flags, lo, prefix, first, [] + name + [LevelOf(v)]);
    r := AddBytes(buf, cursor, BigEndian16(p.keepAlive), lo, prefix, first, [] + name + [LevelOf(v)] + [flags]);
  }

  method ConnectBody(p: Packet, v: Version, buf: array<byte>, start: nat,
                     ghost lo: nat, ghost prefix: seq<byte>, ghost first: byte)
    returns (r: Result<nat, PacketError>)
    requires p.Connect? && Drafted(buf[..], lo, start, prefix, first, [])
    modifies buf
    ensures r == Writes(ShapeOf(p, v), buf.Length, start)
    ensures r.Success? ==> Drafted(buf[..], lo, r.value, prefix, first, Body(p, v))
    ensures lo < buf.Length && buf[..lo] == prefix
  {
    hide Drafted, Prefixed, PropertyField, WillBytes, OptionalText, ConnectHead;
    ghost var b1 := ConnectHead(p, v) + PropertyField(p.properties, v);
    ghost var b2 := b1 + Prefixed(p.clientId);
    ghost var b3 := b2 + WillBytes(p.will, v);
    ghost var b4 := b3 + OptionalText(p.username);
    assert Body(p, v) == b4 + OptionalText(p.password);
    ConnectWrites(p, v, buf.Length, start);
    hide Body, Writes, ShapeOf, TextShape, WillShape, OptionalShape;
    var cursor :- AddConnectHead(p, v, buf, start, lo, prefix, first);
    cursor :- AddProperties(buf, cursor, p.properties, v, lo, prefix, first, ConnectHead(p, v));
    cursor :- AddPrefixed(buf, cursor, p.clientId, lo, prefix, first, b1);
    cursor :- AddOptionalWill(buf, cursor, p.will, v, lo, prefix, first, b2);
    cursor :- AddOptional(buf, cursor, p.username, lo, prefix, first, b3);
    r := AddOptional(buf, cursor, p.password, lo, prefix, first, b4);
  }

  /** Writing the parts of CONNECT one after another. */
  lemma ConnectWrites(p: Packet, v: Version, capacity: nat, start: nat)
    requires p.Connect?
    ensures var r1 := Writes(Plain(|ConnectHead(p, v)|), capacity, start);
            Writes(ShapeOf(p, v), capacity, start) == if r1.Failure? then r1 else
            var r2 := Writes(Plain(|PropertyField(p.properties, v)|), capacity, r1.value); if r2.Failure? then r2 else
            var r3 := Writes(TextShape(p.clientId), capacity, r2.value); if r3.Failure? then r3 else
            var r4 := Writes(WillShape(p.will, v), capacity, r3.value); if r4.Failure? then r4 else
            var r5 := Writes(OptionalShape(p.username), capacity, r4.value); if r5.Failure? then r5 else
            Writes(OptionalShape(p.password), capacity, r5.value)
  {
    hide *;
    UnfoldConnectShape(p, v);
    var a1 := Then(Plain(|ConnectHead(p, v)|), Plain(|PropertyField(p.properties, v)|));
    var a2 := Then(a1, TextShape(p.clientId));
    var a3 := Then(a2, WillShape(p.will, v));
    var a4 := Then(a3, OptionalShape(p.username));
    WritesThen(Plain(|ConnectHead(p, v)|), Plain(|PropertyField(p.properties, v)|), capacity, start);
    WritesThen(a1, TextShape(p.clientId), capacity, start);
    WritesThen(a2, WillShape(p.will, v), capacity, start);
    WritesThen(a3, OptionalShape(p.username), capacity, start);
    WritesThen(a4, OptionalShape(p.password), capacity, start);
  }

  lemma UnfoldConnectShape(p: Packet, v: Version)
    requires p.Connect?
    ensures ShapeOf(p, v)
         == Then(Then(Then(Then(Then(Plain(|ConnectHead(p, v)|), Plain(|PropertyField(p.properties, v)|)),
                                TextShape(p.clientId)), WillShape(p.will, v)), OptionalShape(p.username)),
                 OptionalShape(p.password))
  {
    hide Then, Plain, TextShape, WillShape, OptionalShape, ConnectHead, PropertyField;
  }

  /** The part of every encoder between the first byte and the length. */
  method WriteBody(p: Packet, v: Version, buf: array<byte>, start: nat,
                   ghost lo: nat, ghost prefix: seq<byte>, ghost first: byte)
    returns (r: Result<nat, PacketError>)
    requires !p.PingReq? && !p.PingResp? && Drafted(buf[..], lo, start, prefix, first, [])
    modifies buf
    ensures r == Writes(ShapeOf(p, v), buf.Length, start)
    ensures r.Success? ==> Drafted(buf[..], lo, r.value, prefix, first, Body(p, v))
    ensures lo < buf.Length && buf[..lo] == prefix
  {
    hide *;
    match p
    case Connect(_, _, _, _, _, _, _) => r := ConnectBody(p, v, buf, start, lo, prefix, first);
    case ConnAck(_, _, _) => r := ConnAckBody(p, v, buf, start, lo, prefix, first);
    case Publish(_, _, _, _, _, _, _) => r := PublishBody(p, v, buf, start, lo, prefix, first);
    case PubAck(a) => r := AckBody(p, a, v, buf, start, lo, prefix, first);
    case PubRec(a) => r := AckBody(p, a, v, buf, start, lo, prefix, first);
    case PubRel(a) => r := AckBody(p, a, v, buf, start, lo, prefix, first);
    case PubComp(a) => r := AckBody(p, a, v, buf, start, lo, prefix, first);
    case Subscribe(_, _, _) => r := SubscribeBody(p, v, buf, start, lo, prefix, first);
    case SubAck(_, _, _) => r := CodesBody(p, v, buf, start, lo, prefix, first);
    case Unsubscribe(_, _, _) => r := UnsubscribeBody(p, v, buf, start, lo, prefix, first);
    case UnsubAck(_, _, _) => r := CodesBody(p, v, buf, start, lo, prefix, first);
    case Disconnect(_, _) => r := DisconnectBody(p, v, buf, start, lo, prefix, first);
  }

  /** PINGREQ and PINGRESP. */
  method EncodePing(p: Packet, v: Version, buf: array<byte>, lo: nat) returns (r: Result<nat, PacketError>)
    requires (p.PingReq? || p.PingResp?) && lo <= buf.Length
    modifies buf
    ensures buf[..lo] == old(buf[..lo]) && r == Tried(p, v, buf.Length - lo)
    ensures r.Success? ==> lo + r.value <= buf.Length && buf[lo..lo + r.value] == Encoded(p, v)
  {
    assert VarInt.Encoding(0) == [0];
    if buf.Length - lo < 2 {
      return Failure(BufferTooSmall);
    }
    buf[lo] := FirstByte(p);
    buf[lo + 1] := 0x00;
    assert buf[lo..lo + 2] == Encoded(p, v);
    assert buf[..lo] == old(buf[..lo]);
    return Success(2);
  }

  /**
   `EncodePacket::encode` on the slice `buf[lo..]`: on success the slice starts with the packet's bytes, and bytes
   before the slice are never touched.
   */
  method Encode(p: Packet, v: Version, buf: array<byte>, lo: nat) returns (r: Result<nat, PacketError>)
    requires lo <= buf.Length
    modifies buf
    ensures buf[..lo] == old(buf[..lo]) && r == Tried(p, v, buf.Length - lo)
    ensures r.Success? ==> lo + r.value <= buf.Length && buf[lo..lo + r.value] == Encoded(p, v)
  {
    hide Body, Drafted, Frame, FirstByte, ShiftPanics, FrameSpace;
    if p.PingReq? || p.PingResp? {
      r := EncodePing(p, v, buf, lo);
    } else {
      r := EncodeFrame(p, v, buf, lo);
    }
  }

  /** The encoders with a body: reserve, body, true length, shift. */
  method EncodeFrame(p: Packet, v: Version, buf: array<byte>, lo: nat) returns (r: Result<nat, PacketError>)
    requires !p.PingReq? && !p.PingResp? && lo <= buf.Length
    modifies buf
    ensures buf[..lo] == old(buf[..lo])
    ensures r == Tried(p, v, buf.Length - lo)
    ensures r.Success? ==> lo + r.value <= buf.Length && buf[lo..lo + r.value] == Encoded(p, v)
  {
    hide *;
    ghost var prefix, first := buf[..lo], FirstByte(p);
    FrameOutcome(p, v, buf.Length, lo);
    var begun := Begin(buf, lo, FirstByte(p));
    if begun.Failure? {
      return Failure(begun.error);
    }
    var written := WriteBody(p, v, buf, begun.value, lo, prefix, first);
    if written.Failure? {
      return Failure(written.error);
    }
    r := Finish(buf, lo, written.value, prefix, first, Body(p, v));
  }

  /** How an encoder ends, step by step. */
  lemma FrameOutcome(p: Packet, v: Version, capacity: nat, lo: nat)
    requires !p.PingReq? && !p.PingResp? && lo <= capacity
    ensures var body, room := Body(p, v), capacity - lo;
            && Encoded(p, v) == Frame(FirstByte(p), body)
            && (room == 0 ==> Tried(p, v, room) == Failure(BufferTooSmall))
            && (room > 0 ==>
                  var written := Writes(ShapeOf(p, v), capacity, lo + 5);
                  Tried(p, v, room) == if written.Failure? then written
                                       else if lo + FrameSpace(body) <= capacity then Success(|Encoded(p, v)|)
                                       else if ShiftPanics(body, room) then Failure(SliceOutOfRange)
                                       else Failure(BufferTooSmall))
  {
    hide *;
    ShapeFits(p, v);
    ShiftNeedsRoom(Body(p, v), capacity - lo);
    RoomForBody(Body(p, v));
    UnfoldTried(p, v, capacity - lo);
    UnfoldWrites(ShapeOf(p, v), capacity, lo + 5);
  }

  lemma UnfoldTried(p: Packet, v: Version, room: nat)
    requires !p.PingReq? && !p.PingResp?
    ensures var shape, body := ShapeOf(p, v), Body(p, v);
            Tried(p, v, room)
            == if shape.spoiled.Some? then
                 Failure(if room < 5 + shape.spoiled.value then BufferTooSmall else PayloadTooLarge)
               else if FrameSpace(body) <= room then Success(|Encoded(p, v)|)
               else if LengthsFit(p) && ShiftPanics(body, room) then Failure(SliceOutOfRange)
               else Failure(BufferTooSmall)
    ensures Encoded(p, v) == Frame(FirstByte(p), Body(p, v))
  {
    hide ShapeOf, Body, LengthsFit, ShiftPanics, FrameSpace, Frame, FirstByte;
  }

  lemma UnfoldWrites(a: Shape, capacity: nat, cursor: nat)
    ensures Writes(a, capacity, cursor)
         == if a.spoiled.Some? then
              Failure(if cursor + a.spoiled.value > capacity then BufferTooSmall else PayloadTooLarge)
            else if a.size > 0 && cursor + a.size > capacity then Failure(BufferTooSmall)
            else Success(cursor + a.size)
  {
  }

  lemma RoomForBody(body: seq<byte>)
    ensures 5 + |body| <= FrameSpace(body)
  {
  }

  lemma ShiftNeedsRoom(body: seq<byte>, room: nat)
    ensures ShiftPanics(body, room) ==> 2 <= room && (body != [] ==> 5 + |body| <= room)
  {
  }

  lemma BodyIsEmptyOnlyInDisconnect(p: Packet, v: Version)
    ensures Body(p, v) == [] ==> p.Disconnect? || p.PingReq? || p.PingResp?
  {
    hide Block, Prefixed, PropertyField, FilterBytes, TopicBytes, WillBytes, OptionalText, ReasonBytes, BigEndian16,
      ConnectFlags;
  }
}
