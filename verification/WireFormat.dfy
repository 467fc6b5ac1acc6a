/**
 Control packets on the wire, written as the tables of MQTT 5.0 (chapters 2 and 3) read and not as the decoders go: each
 predicate says which bytes stand for a value, with `rest` for the bytes behind them. The decoders accept exactly these.
 */
module WireFormat {
  import opened Wrappers
  import opened Bytes
  import opened PacketErrors
  import opened Fields
  import opened Properties
  import opened Packets
  import opened Decoder
  import RoundTrip
  import VarInt

  // ---- Fields ----

  /** A two-byte integer, the high byte first. */
  predicate WordThen(s: seq<byte>, n: nat, rest: seq<byte>) {
    |s| >= 2 && n == HighLow(s[0], s[1]) && rest == s[2..]
  }

  /** Binary data behind its two-byte length. */
  predicate DataThen(s: seq<byte>, data: seq<byte>, rest: seq<byte>) {
    |s| >= 2 && |data| == HighLow(s[0], s[1]) && s[2..] == data + rest
  }

  predicate TextThen(s: seq<byte>, text: seq<byte>, rest: seq<byte>) {
    DataThen(s, text, rest) && ValidUtf8(text)
  }

  predicate OptionalThen(s: seq<byte>, text: Option<seq<byte>>, rest: seq<byte>) {
    match text
    case None => rest == s
    case Some(t) => TextThen(s, t, rest)
  }

  /** Properties behind their length, which takes `k` bytes. */
  predicate BlockThen(s: seq<byte>, k: nat, ps: seq<Property>, rest: seq<byte>) {
    k <= |s| && VarInt.Spells(s[..k], |PropertyBytes(ps)|) && s[k..] == PropertyBytes(ps) + rest && WellFormed(ps)
  }

  /** Where properties may stand, they may also be missing when nothing follows. */
  ghost predicate PropertiesThen(there: bool, s: seq<byte>, ps: seq<Property>, rest: seq<byte>) {
    if there && s != [] then exists k :: BlockThen(s, k, ps, rest) else ps == [] && rest == s
  }

  /** A parser took `x` off the start of `buf[c..]` and left `rest`. */
  ghost predicate Took<T>(p: Parsed<T>, buf: seq<byte>, x: T, rest: seq<byte>) {
    p.Success? && p.value.1 <= |buf| && p.value.0 == x && rest == buf[p.value.1..]
  }

  lemma DataIff(buf: seq<byte>, c: nat, data: seq<byte>, rest: seq<byte>)
    requires c <= |buf|
    ensures DataThen(buf[c..], data, rest) <==> Took(ParseBinary(buf, c), buf, data, rest)
  {
    var s := buf[c..];
    if DataThen(s, data, rest) {
      Halves(data, rest);
      SliceOfSlice(buf, c + 2, |data|);
      assert s[2..] == buf[c + 2..];
    }
    if c + 2 <= |buf| && c + 2 + HighLow(buf[c], buf[c + 1]) <= |buf| {
      var n := HighLow(buf[c], buf[c + 1]);
      assert s[2..] == buf[c + 2..c + 2 + n] + buf[c + 2 + n..];
    }
  }

  lemma TextIff(buf: seq<byte>, c: nat, text: seq<byte>, rest: seq<byte>)
    requires c <= |buf|
    ensures TextThen(buf[c..], text, rest) <==> Took(ParseString(buf, c), buf, text, rest)
  {
    DataIff(buf, c, text, rest);
    hide DataThen, ParseBinary, ValidUtf8;
  }

  lemma OptionalIff(buf: seq<byte>, c: nat, text: Option<seq<byte>>, rest: seq<byte>)
    requires c <= |buf|
    ensures OptionalThen(buf[c..], text, rest) <==> Took(ParseOptionalString(text.Some?, buf, c), buf, text, rest)
  {
    if text.Some? {
      TextIff(buf, c, text.value, rest);
    }
    hide TextThen, ParseString;
  }

  /** What is taken has the presence that was asked for. */
  lemma OptionalIsThere(present: bool, buf: seq<byte>, c: nat)
    requires c <= |buf|
    ensures var p := ParseOptionalString(present, buf, c); p.Success? ==> p.value.0.Some? == present
  {
    hide ParseString;
  }

  lemma BlockIsTaken(buf: seq<byte>, c: nat, k: nat, ps: seq<Property>, rest: seq<byte>)
    requires c <= |buf| && BlockThen(buf[c..], k, ps, rest)
    ensures Took(ParseProperties(buf, c), buf, ps, rest)
  {
    hide WellFormed, Shaped, VarInt.Spells, VarInt.Read, ParseEach;
    var s, body := buf[c..], PropertyBytes(ps);
    VarInt.ReadIff(s, |body|, k);
    SliceOfSlice(buf, c, k);
    var start := c + k;
    Halves(body, rest);
    SliceOfSlice(buf, start, |body|);
    EachIsTaken(ps, buf, start, start + |body|);
  }

  lemma EachIsTaken(ps: seq<Property>, buf: seq<byte>, start: nat, end: nat)
    requires WellFormed(ps) && start <= end <= |buf| && buf[start..end] == PropertyBytes(ps)
    ensures ParseEach(buf, start, end, []) == Success((ps, end))
  {
    hide Shaped, ParseEach, PropertyBytes;
    ParseInvertsEach(ps, buf, start, end, []);
    assert [] + ps == ps;
  }

  lemma TakenIsBlock(buf: seq<byte>, c: nat) returns (k: nat)
    requires c <= |buf| && ParseProperties(buf, c).Success?
    ensures var (ps, end) := ParseProperties(buf, c).value; BlockThen(buf[c..], k, ps, buf[end..])
  {
    hide WellFormed, Shaped, VarInt.Spells, VarInt.Read, ParseEach, PropertyBytes;
    AcceptedBlockIsThere(buf, c);
    var (ps, end) := ParseProperties(buf, c).value;
    var (len, start) := ParseVarInt(buf, c).value;
    k := start - c;
    VarInt.ReadIff(buf[c..], len, k);
    SliceOfSlice(buf, c, k);
    SliceOfSlice(buf, start, end - start);
    Reattached(buf[start..], end - start);
    LengthIsRead(buf, c, len, start);
  }

  lemma LengthIsRead(buf: seq<byte>, c: nat, len: nat, start: nat)
    requires c <= start && c <= |buf| && ParseVarInt(buf, c) == Success((len, start))
    ensures VarInt.Read(buf[c..]) == Success((len, start - c))
  {
    hide VarInt.Read;
    var r := VarInt.Read(buf[c..]);
    assert r.value == (r.value.0, r.value.1);
  }

  lemma PropertiesIff(there: bool, buf: seq<byte>, c: nat, ps: seq<Property>, rest: seq<byte>)
    requires c <= |buf|
    ensures PropertiesThen(there, buf[c..], ps, rest)
       <==> Took(ParsePropertiesIf(there, buf, c, |buf|), buf, ps, rest)
  {
    hide BlockThen, ParseProperties;
    if there && c < |buf| {
      assert ParsePropertiesIf(there, buf, c, |buf|) == ParseProperties(buf, c);
      if exists k :: BlockThen(buf[c..], k, ps, rest) {
        var k :| BlockThen(buf[c..], k, ps, rest);
        BlockIsTaken(buf, c, k, ps, rest);
      }
      if Took(ParseProperties(buf, c), buf, ps, rest) {
        var k := TakenIsBlock(buf, c);
        assert BlockThen(buf[c..], k, ps, rest);
      }
    } else {
      assert ParsePropertiesIf(there, buf, c, |buf|) == Success(([], c));
    }
  }

  // ---- PUBLISH (section 3.3) ----

  /** Quality of service on the wire; 3, which the standard forbids, is taken for 2. */
  predicate Level(q: nat, qos: QoS) {
    qos == if q == 0 then AtMostOnce else if q == 1 then AtLeastOnce else ExactlyOnce
  }

  /** The identifier is there exactly above quality 0. */
  predicate IdThen(q: nat, s: seq<byte>, packetId: Option<u16>, rest: seq<byte>) {
    if q == 0 then packetId == None && rest == s else packetId.Some? && WordThen(s, packetId.value, rest)
  }

  predicate PublishFlags(first: byte, dup: bool, q: nat, retain: bool) {
    q < 4 && first == 0x30 + (if dup then 8 else 0) + 2 * q + (if retain then 1 else 0)
  }

  ghost predicate PublishParts(s: seq<byte>, p: Packet, q: nat, v: Version, s1: seq<byte>, s2: seq<byte>)
    requires p.Publish?
  {
    && Level(q, p.qos) && TextThen(s, p.topic, s1) && IdThen(q, s1, p.packetId, s2)
    && PropertiesThen(v == V5, s2, p.properties, p.payload)
  }

  ghost predicate PublishSpelled(first: byte, s: seq<byte>, p: Packet, v: Version) {
    p.Publish? && exists q, s1, s2 :: PublishFlags(first, p.dup, q, p.retain) && PublishParts(s, p, q, v, s1, s2)
  }

  lemma FlagsIff(first: byte, dup: bool, q: nat, retain: bool)
    requires 0x30 <= first < 0x40
    ensures PublishFlags(first, dup, q, retain)
       <==> Bit(first, 8) == dup && first / 2 % 4 == q && Bit(first, 1) == retain
  {
  }

  lemma IdIff(q: nat, buf: seq<byte>, c: nat, packetId: Option<u16>, rest: seq<byte>)
    requires c <= |buf|
    ensures IdThen(q, buf[c..], packetId, rest)
       <==> Took(ParsePacketId(QoSFrom(q), buf, c, |buf|), buf, packetId, rest)
  {
    assert c + 2 <= |buf| ==> buf[c..][2..] == buf[c + 2..];
  }

  lemma LevelIff(q: nat, qos: QoS)
    ensures Level(q, qos) <==> QoSFrom(q) == qos
  {
  }

  /** The content of a frame that ends with the slice. */
  ghost predicate Whole(buf: seq<byte>, start: nat) {
    buf != [] && start <= |buf| && Content(buf) == Success((|buf|, start))
  }

  lemma PublishIff(buf: seq<byte>, start: nat, p: Packet, v: Version)
    requires Whole(buf, start) && 0x30 <= buf[0] < 0x40
    ensures DecodePublish(buf, v) == Success(p) <==> PublishSpelled(buf[0], buf[start..], p, v)
  {
    hide Content, DecodePublish, PublishSpelled;
    if PublishSpelled(buf[0], buf[start..], p, v) {
      PublishIsTaken(buf, start, p, v);
    }
    if DecodePublish(buf, v) == Success(p) {
      TakenIsPublish(buf, start, p, v);
    }
  }

  lemma PublishIsTaken(buf: seq<byte>, start: nat, p: Packet, v: Version)
    requires Whole(buf, start) && 0x30 <= buf[0] < 0x40 && PublishSpelled(buf[0], buf[start..], p, v)
    ensures DecodePublish(buf, v) == Success(p)
  {
    hide Content, ParseString, ParsePropertiesIf, ParsePacketId, Bit, QoSFrom, TextThen, IdThen, PropertiesThen, Level,
      PublishFlags;
    var q, s1, s2 :| PublishFlags(buf[0], p.dup, q, p.retain) && PublishParts(buf[start..], p, q, v, s1, s2);
    FlagsIff(buf[0], p.dup, q, p.retain);
    LevelIff(q, p.qos);
    TextIff(buf, start, p.topic, s1);
    var c1 := ParseString(buf, start).value.1;
    IdIff(q, buf, c1, p.packetId, s2);
    var c2 := ParsePacketId(p.qos, buf, c1, |buf|).value.1;
    PropertiesIff(v == V5, buf, c2, p.properties, p.payload);
    var c3 := ParsePropertiesIf(v == V5, buf, c2, |buf|).value.1;
    assert buf[c3..|buf|] == buf[c3..];
  }

  lemma TakenIsPublish(buf: seq<byte>, start: nat, p: Packet, v: Version)
    requires Whole(buf, start) && 0x30 <= buf[0] < 0x40 && DecodePublish(buf, v) == Success(p)
    ensures PublishSpelled(buf[0], buf[start..], p, v)
  {
    hide Content, ParseString, ParsePropertiesIf, ParsePacketId, Bit, QoSFrom, TextThen, IdThen, PropertiesThen, Level,
      PublishFlags;
    var q: nat := buf[0] / 2 % 4;
    FlagsIff(buf[0], p.dup, q, p.retain);
    LevelIff(q, p.qos);
    var c1 := ParseString(buf, start).value.1;
    TextIff(buf, start, p.topic, buf[c1..]);
    var c2 := ParsePacketId(p.qos, buf, c1, |buf|).value.1;
    IdIff(q, buf, c1, p.packetId, buf[c2..]);
    PropertiesIff(v == V5, buf, c2, p.properties, p.payload);
    var c3 := ParsePropertiesIf(v == V5, buf, c2, |buf|).value.1;
    assert buf[c3..|buf|] == buf[c3..];
    assert PublishParts(buf[start..], p, q, v, buf[c1..], buf[c2..]);
  }

  /** Properties, whatever they leave. */
  ghost predicate PropertiesFirst(there: bool, s: seq<byte>, ps: seq<Property>) {
    exists rest :: PropertiesThen(there, s, ps, rest)
  }

  // ---- CONNACK, the acknowledgements and DISCONNECT (sections 3.2, 3.4 to 3.7 and 3.14) ----

  ghost predicate ConnAckSpelled(s: seq<byte>, p: Packet, v: Version) {
    && p.ConnAck? && |s| >= 2 && s[0] % 2 == (if p.sessionPresent then 1 else 0) && s[1] == p.reasonCode
    && PropertiesFirst(v == V5, s[2..], p.properties)
  }

  /** Before version 5 there is neither; in version 5 both may be missing, or the properties alone. */
  ghost predicate ReasonSpelled(s: seq<byte>, reason: byte, ps: seq<Property>, v: Version) {
    if v == V5 && s != [] then reason == s[0] && PropertiesFirst(true, s[1..], ps)
    else reason == 0 && ps == []
  }

  ghost predicate AckSpelled(s: seq<byte>, a: Ack, v: Version) {
    |s| >= 2 && a.packetId == HighLow(s[0], s[1]) && ReasonSpelled(s[2..], a.reasonCode, a.properties, v)
  }

  lemma SomePropertiesIff(there: bool, buf: seq<byte>, c: nat, ps: seq<Property>)
    requires c <= |buf|
    ensures PropertiesFirst(there, buf[c..], ps)
       <==> var r := ParsePropertiesIf(there, buf, c, |buf|); r.Success? && r.value.0 == ps
  {
    hide PropertiesThen, ParsePropertiesIf;
    var r := ParsePropertiesIf(there, buf, c, |buf|);
    if PropertiesFirst(there, buf[c..], ps) {
      var rest :| PropertiesThen(there, buf[c..], ps, rest);
      PropertiesIff(there, buf, c, ps, rest);
    }
    if r.Success? && r.value.0 == ps {
      PropertiesIff(there, buf, c, ps, buf[r.value.1..]);
    }
  }

  lemma ConnAckIff(buf: seq<byte>, start: nat, p: Packet, v: Version)
    requires Whole(buf, start)
    ensures DecodeConnAck(buf, v) == Success(p) <==> p.ConnAck? && ConnAckSpelled(buf[start..], p, v)
  {
    hide Content, ParsePropertiesIf, PropertiesFirst;
    if start + 2 <= |buf| && p.ConnAck? {
      SliceOfSlice(buf, start, 2);
      SomePropertiesIff(v == V5, buf, start + 2, p.properties);
    }
  }

  lemma ReasonIff(buf: seq<byte>, c: nat, reason: byte, ps: seq<Property>, v: Version)
    requires c <= |buf|
    ensures ReasonSpelled(buf[c..], reason, ps, v)
       <==> var r := ParseReason(buf, c, |buf|, v); r.Success? && r.value.0 == (reason, ps)
  {
    hide ParsePropertiesIf, PropertiesFirst;
    if c < |buf| {
      SliceOfSlice(buf, c, 1);
      SomePropertiesIff(true, buf, c + 1, ps);
    }
  }

  lemma AckIff(buf: seq<byte>, start: nat, a: Ack, v: Version)
    requires Whole(buf, start)
    ensures DecodeAck(buf, v) == Success(a) <==> AckSpelled(buf[start..], a, v)
  {
    hide Content, ParseReason, ReasonSpelled;
    if start + 2 <= |buf| {
      SliceOfSlice(buf, start, 2);
      ReasonIff(buf, start + 2, a.reasonCode, a.properties, v);
    }
  }

  lemma DisconnectIff(buf: seq<byte>, start: nat, p: Packet, v: Version)
    requires Whole(buf, start) && |buf| > 1
    ensures DecodeDisconnect(buf, v) == Success(p)
       <==> p.Disconnect? && ReasonSpelled(buf[start..], p.disconnectReason, p.properties, v)
  {
    hide Content, ParseReason, ReasonSpelled;
    if p.Disconnect? {
      ReasonIff(buf, start, p.disconnectReason, p.properties, v);
    }
  }

  // ---- Lists (sections 3.8 to 3.11) ----

  /** A filter and its options byte, of which every value above 1 asks for quality 2, and so on to the end. */
  ghost predicate FiltersSpelled(s: seq<byte>, filters: seq<(seq<byte>, QoS)>)
    decreases |filters|
  {
    if filters == [] then s == []
    else exists options: byte, rest :: FilterThen(s, filters[0].0, options, rest) && Level(options, filters[0].1)
                                 && FiltersSpelled(rest, filters[1..])
  }

  predicate FilterThen(s: seq<byte>, filter: seq<byte>, options: byte, rest: seq<byte>) {
    TextThen(s, filter, [options] + rest)
  }

  ghost predicate TopicsSpelled(s: seq<byte>, topics: seq<seq<byte>>)
    decreases |topics|
  {
    if topics == [] then s == []
    else exists rest :: TextThen(s, topics[0], rest) && TopicsSpelled(rest, topics[1..])
  }

  /** Lists of more than eight are refused. */
  function Batch<T>(list: seq<T>): Result<seq<T>, PacketError> {
    if |list| <= 8 then Success(list) else Failure(BatchCapacityExceeded)
  }

  lemma {:induction false} FiltersAreTaken(buf: seq<byte>, c: nat, filters: seq<(seq<byte>, QoS)>,
                                           sofar: seq<(seq<byte>, QoS)>)
    requires c <= |buf| && FiltersSpelled(buf[c..], filters) && |sofar| <= 8
    ensures ParseFilters(buf, c, |buf|, sofar) == Batch(sofar + filters)
    decreases |filters|
  {
    hide ParseString, TextThen, QoSFrom, Level;
    if filters == [] {
      assert sofar + filters == sofar;
    } else {
      var options: byte, rest :| FilterThen(buf[c..], filters[0].0, options, rest) && Level(options, filters[0].1)
                           && FiltersSpelled(rest, filters[1..]);
      hide FiltersSpelled;
      FilterIsTaken(buf, c, filters[0].0, options, rest);
      LevelIff(options, filters[0].1);
      var next := ParseString(buf, c).value.1;
      if |sofar| < 8 {
        FiltersAreTaken(buf, next + 1, filters[1..], sofar + [filters[0]]);
        assert sofar + [filters[0]] + filters[1..] == sofar + filters;
      }
    }
  }

  lemma FilterIsTaken(buf: seq<byte>, c: nat, filter: seq<byte>, options: byte, rest: seq<byte>)
    requires c <= |buf| && FilterThen(buf[c..], filter, options, rest)
    ensures c < |buf| && ParseString(buf, c).Success? && ParseString(buf, c).value.0 == filter
    ensures var next := ParseString(buf, c).value.1; next < |buf| && buf[next] == options && buf[next + 1..] == rest
  {
    TextIff(buf, c, filter, [options] + rest);
    hide TextThen, ParseString;
    var next := ParseString(buf, c).value.1;
    assert buf[next..][0] == options && buf[next..][1..] == rest;
  }

  lemma {:induction false} TakenAreFilters(buf: seq<byte>, c: nat, sofar: seq<(seq<byte>, QoS)>)
    requires c <= |buf| && ParseFilters(buf, c, |buf|, sofar).Success?
    ensures var filters := ParseFilters(buf, c, |buf|, sofar).value;
            sofar <= filters && FiltersSpelled(buf[c..], filters[|sofar|..])
    decreases |buf| - c
  {
    hide ParseString, TextThen, QoSFrom, Level;
    if c < |buf| {
      var filters := ParseFilters(buf, c, |buf|, sofar).value;
      var (topic, next) := ParseString(buf, c).value;
      var f := (topic, QoSFrom(buf[next]));
      TakenAreFilters(buf, next + 1, sofar + [f]);
      TextIff(buf, c, topic, buf[next..]);
      LevelIff(buf[next], f.1);
      assert buf[next..] == [buf[next]] + buf[next + 1..];
      var later := filters[|sofar|..];
      assert later[0] == (sofar + [f])[|sofar|] && later[1..] == filters[|sofar + [f]|..];
      assert FilterThen(buf[c..], later[0].0, buf[next], buf[next + 1..]);
    }
  }

  lemma {:induction false} TopicsAreTaken(buf: seq<byte>, c: nat, topics: seq<seq<byte>>, sofar: seq<seq<byte>>)
    requires c <= |buf| && TopicsSpelled(buf[c..], topics) && |sofar| <= 8
    ensures ParseTopics(buf, c, |buf|, sofar) == Batch(sofar + topics)
    decreases |topics|
  {
    hide ParseString, TextThen;
    if topics == [] {
      assert sofar + topics == sofar;
    } else {
      var rest :| TextThen(buf[c..], topics[0], rest) && TopicsSpelled(rest, topics[1..]);
      hide TopicsSpelled;
      TextIff(buf, c, topics[0], rest);
      NothingIsNoText(topics[0], rest);
      var next := ParseString(buf, c).value.1;
      if |sofar| < 8 {
        TopicsAreTaken(buf, next, topics[1..], sofar + [topics[0]]);
        assert sofar + [topics[0]] + topics[1..] == sofar + topics;
      }
    }
  }

  lemma NothingIsNoText(text: seq<byte>, rest: seq<byte>)
    ensures !TextThen([], text, rest)
  {
  }

  lemma {:induction false} TakenAreTopics(buf: seq<byte>, c: nat, sofar: seq<seq<byte>>)
    requires c <= |buf| && ParseTopics(buf, c, |buf|, sofar).Success?
    ensures var topics := ParseTopics(buf, c, |buf|, sofar).value;
            sofar <= topics && TopicsSpelled(buf[c..], topics[|sofar|..])
    decreases |buf| - c
  {
    hide ParseString, TextThen;
    if c < |buf| {
      var topics := ParseTopics(buf, c, |buf|, sofar).value;
      var (topic, next) := ParseString(buf, c).value;
      TakenAreTopics(buf, next, sofar + [topic]);
      TextIff(buf, c, topic, buf[next..]);
      var later := topics[|sofar|..];
      assert later[0] == (sofar + [topic])[|sofar|] && later[1..] == topics[|sofar + [topic]|..];
      assert TextThen(buf[c..], later[0], buf[next..]);
    }
  }

  lemma {:induction false} CodesAreTaken(buf: seq<byte>, c: nat, sofar: seq<byte>)
    requires c <= |buf| && |sofar| <= 8
    ensures ParseCodes(buf, c, |buf|, sofar) == Batch(sofar + buf[c..])
    decreases |buf| - c
  {
    if c == |buf| {
      assert sofar + buf[c..] == sofar;
    } else if |sofar| < 8 {
      CodesAreTaken(buf, c + 1, sofar + [buf[c]]);
      assert sofar + [buf[c]] + buf[c + 1..] == sofar + buf[c..];
    }
  }

  /** The identifier and the properties that open these packets, with the list behind them. */
  ghost predicate ListAfter(s: seq<byte>, id: nat, ps: seq<Property>, v: Version, list: seq<byte>) {
    |s| >= 2 && id == HighLow(s[0], s[1]) && PropertiesThen(v == V5, s[2..], ps, list)
  }

  ghost predicate SubscribeSpelled(s: seq<byte>, id: nat, filters: seq<(seq<byte>, QoS)>, ps: seq<Property>,
                                   v: Version)
  {
    exists list :: ListAfter(s, id, ps, v, list) && FiltersSpelled(list, filters)
  }

  ghost predicate UnsubscribeSpelled(s: seq<byte>, id: nat, topics: seq<seq<byte>>, ps: seq<Property>, v: Version) {
    exists list :: ListAfter(s, id, ps, v, list) && TopicsSpelled(list, topics)
  }

  /** Identifier and properties of a list packet were read, and the list starts at `c2`. */
  ghost predicate ListAt(buf: seq<byte>, id: nat, ps: seq<Property>, v: Version, c2: nat) {
    && buf != [] && ParseId(buf).Success? && c2 <= |buf|
    && var (i, c1, end) := ParseId(buf).value;
       i == id && end == |buf| && ParsePropertiesIf(v == V5, buf, c1, end) == Success((ps, c2))
  }

  lemma ListAfterIff(buf: seq<byte>, start: nat, id: nat, ps: seq<Property>, v: Version, list: seq<byte>)
    requires Whole(buf, start)
    ensures ListAfter(buf[start..], id, ps, v, list)
       <==> |list| <= |buf| && list == buf[|buf| - |list|..] && ListAt(buf, id, ps, v, |buf| - |list|)
  {
    hide Content, ParsePropertiesIf, PropertiesThen;
    if start + 2 <= |buf| {
      SliceOfSlice(buf, start, 2);
      PropertiesIff(v == V5, buf, start + 2, ps, list);
    }
  }

  lemma Prepended<T>(list: seq<T>)
    ensures [] + list == list
  {
  }

  lemma SubscribeIsTaken(buf: seq<byte>, start: nat, id: u16, filters: seq<(seq<byte>, QoS)>, ps: seq<Property>,
                         v: Version)
    requires Whole(buf, start) && SubscribeSpelled(buf[start..], id, filters, ps, v)
    ensures DecodeSubscribe(buf, v)
         == if |filters| <= 8 then Success(Subscribe(id, filters, ps)) else Failure(BatchCapacityExceeded)
  {
    hide Content, DecodeSubscribe, ListAt, ParseFilters, ListAfter, FiltersSpelled;
    var list :| ListAfter(buf[start..], id, ps, v, list) && FiltersSpelled(list, filters);
    ListAfterIff(buf, start, id, ps, v, list);
    SubscribeListIsTaken(buf, |buf| - |list|, id, filters, ps, v);
  }

  lemma SubscribeListIsTaken(buf: seq<byte>, c2: nat, id: u16, filters: seq<(seq<byte>, QoS)>, ps: seq<Property>,
                                v: Version)
    requires ListAt(buf, id, ps, v, c2) && c2 <= |buf| && FiltersSpelled(buf[c2..], filters)
    ensures DecodeSubscribe(buf, v)
         == if |filters| <= 8 then Success(Subscribe(id, filters, ps)) else Failure(BatchCapacityExceeded)
  {
    hide ListAt, FiltersSpelled, DecodeSubscribe, ParseFilters;
    FiltersAreTaken(buf, c2, filters, []);
    Prepended(filters);
    SubscribeFolds(buf, id, ps, v, c2);
  }

  lemma SubscribeFolds(buf: seq<byte>, id: u16, ps: seq<Property>, v: Version, c2: nat)
    requires ListAt(buf, id, ps, v, c2)
    ensures DecodeSubscribe(buf, v)
         == match ParseFilters(buf, c2, |buf|, [])
            case Success(filters) => Success(Subscribe(id, filters, ps))
            case Failure(e) => Failure(e)
  {
    hide ParseId, ParsePropertiesIf, ParseFilters;
  }

  lemma TakenIsSubscribe(buf: seq<byte>, start: nat, p: Packet, v: Version)
    requires Whole(buf, start) && DecodeSubscribe(buf, v) == Success(p)
    ensures p.Subscribe? && SubscribeSpelled(buf[start..], p.subscribeId, p.filters, p.properties, v)
  {
    hide Content, ParsePropertiesIf, ParseFilters, ListAfter, FiltersSpelled;
    var (id, c1, end) := ParseId(buf).value;
    var c2 := ParsePropertiesIf(v == V5, buf, c1, end).value.1;
    var list := buf[c2..];
    TakenAreFilters(buf, c2, []);
    ListAfterIff(buf, start, id, p.properties, v, list);
    assert p.filters[0..] == p.filters;
  }

  lemma UnsubscribeIsTaken(buf: seq<byte>, start: nat, id: u16, topics: seq<seq<byte>>, ps: seq<Property>, v: Version)
    requires Whole(buf, start) && UnsubscribeSpelled(buf[start..], id, topics, ps, v)
    ensures DecodeUnsubscribe(buf, v)
         == if |topics| <= 8 then Success(Unsubscribe(id, topics, ps)) else Failure(BatchCapacityExceeded)
  {
    hide Content, DecodeUnsubscribe, ListAt, ParseTopics, ListAfter, TopicsSpelled;
    var list :| ListAfter(buf[start..], id, ps, v, list) && TopicsSpelled(list, topics);
    ListAfterIff(buf, start, id, ps, v, list);
    UnsubscribeListIsTaken(buf, |buf| - |list|, id, topics, ps, v);
  }

  lemma UnsubscribeListIsTaken(buf: seq<byte>, c2: nat, id: u16, topics: seq<seq<byte>>, ps: seq<Property>,
                                  v: Version)
    requires ListAt(buf, id, ps, v, c2) && c2 <= |buf| && TopicsSpelled(buf[c2..], topics)
    ensures DecodeUnsubscribe(buf, v)
         == if |topics| <= 8 then Success(Unsubscribe(id, topics, ps)) else Failure(BatchCapacityExceeded)
  {
    hide ListAt, TopicsSpelled, DecodeUnsubscribe, ParseTopics;
    TopicsAreTaken(buf, c2, topics, []);
    Prepended(topics);
    UnsubscribeFolds(buf, id, ps, v, c2);
  }

  lemma UnsubscribeFolds(buf: seq<byte>, id: u16, ps: seq<Property>, v: Version, c2: nat)
    requires ListAt(buf, id, ps, v, c2)
    ensures DecodeUnsubscribe(buf, v)
         == match ParseTopics(buf, c2, |buf|, [])
            case Success(topics) => Success(Unsubscribe(id, topics, ps))
            case Failure(e) => Failure(e)
  {
    hide ParseId, ParsePropertiesIf, ParseTopics;
  }

  lemma TakenIsUnsubscribe(buf: seq<byte>, start: nat, p: Packet, v: Version)
    requires Whole(buf, start) && DecodeUnsubscribe(buf, v) == Success(p)
    ensures p.Unsubscribe? && UnsubscribeSpelled(buf[start..], p.unsubscribeId, p.topics, p.properties, v)
  {
    hide Content, ParsePropertiesIf, ParseTopics, ListAfter, TopicsSpelled;
    var (id, c1, end) := ParseId(buf).value;
    var c2 := ParsePropertiesIf(v == V5, buf, c1, end).value.1;
    var list := buf[c2..];
    TakenAreTopics(buf, c2, []);
    ListAfterIff(buf, start, id, p.properties, v, list);
    assert p.topics[0..] == p.topics;
  }

  lemma CodesAre(buf: seq<byte>, start: nat, id: u16, codes: seq<byte>, ps: seq<Property>, v: Version)
    requires Whole(buf, start)
    ensures ListAfter(buf[start..], id, ps, v, codes) ==>
              DecodeCodes(buf, v) == if |codes| <= 8 then Success((id, codes, ps)) else Failure(BatchCapacityExceeded)
    ensures DecodeCodes(buf, v) == Success((id, codes, ps)) ==> ListAfter(buf[start..], id, ps, v, codes)
  {
    hide Content, ParsePropertiesIf, ParseCodes, ListAfter;
    ListAfterIff(buf, start, id, ps, v, codes);
    if |codes| <= |buf| {
      CodesAreTaken(buf, |buf| - |codes|, []);
      assert [] + codes == codes;
    }
    if DecodeCodes(buf, v) == Success((id, codes, ps)) {
      var (_, c1, end) := ParseId(buf).value;
      var c2 := ParsePropertiesIf(v == V5, buf, c1, end).value.1;
      CodesAreTaken(buf, c2, []);
      assert [] + buf[c2..] == buf[c2..];
    }
  }

  // ---- CONNECT (section 3.1) ----

  /** Protocol name: "MQTT", or "MQIsdp" of MQTT 3.1. */
  predicate NameThen(s: seq<byte>, rest: seq<byte>) {
    || s == [0x00, 0x04, 0x4D, 0x51, 0x54, 0x54] + rest
    || s == [0x00, 0x06, 0x4D, 0x51, 0x49, 0x73, 0x64, 0x70] + rest
  }

  /** The connect flags from bit 7 down; bit 0 is not looked at. */
  predicate ConnectFlagsAre(flags: byte, p: Packet, retain: bool, q: nat, reserved: nat)
    requires p.Connect?
  {
    && q < 4 && reserved < 2
    && flags == (if p.username.Some? then 128 else 0) + (if p.password.Some? then 64 else 0)
                + (if retain then 32 else 0) + 8 * q + (if p.will.Some? then 4 else 0)
                + (if p.cleanSession then 2 else 0) + reserved
    && (p.will.Some? ==> Level(q, p.will.value.qos) && p.will.value.retain == retain)
  }

  ghost predicate FlagsMean(flags: byte, p: Packet)
    requires p.Connect?
  {
    exists retain, q, reserved :: ConnectFlagsAre(flags, p, retain, q, reserved)
  }

  /** Protocol level, flags and keep-alive behind the name. */
  ghost predicate HeadThen(s: seq<byte>, level: byte, flags: byte, keepAlive: nat, rest: seq<byte>) {
    exists high: byte, low: byte :: NameThen(s, [level, flags, high, low] + rest) && keepAlive == HighLow(high, low)
  }

  ghost predicate WillThen(v5: bool, s: seq<byte>, will: Option<Will>, rest: seq<byte>) {
    match will
    case None => rest == s
    case Some(w) =>
      exists s1, s2 :: PropertiesThen(v5, s, w.properties, s1) && TextThen(s1, w.topic, s2)
                       && DataThen(s2, w.payload, rest)
  }

  /** What is left behind each part of a CONNECT. */
  datatype ConnectRests = ConnectRests(head: seq<byte>, properties: seq<byte>, clientId: seq<byte>, will: seq<byte>,
                                       username: seq<byte>, password: seq<byte>)

  /** Properties are there in version 5, and also when the packet itself announces version 5. */
  ghost predicate ConnectParts(s: seq<byte>, p: Packet, v: Version, level: byte, flags: byte, r: ConnectRests)
    requires p.Connect?
  {
    var v5 := v == V5 || level == 5;
    && HeadThen(s, level, flags, p.keepAlive, r.head) && FlagsMean(flags, p)
    && PropertiesThen(v5, r.head, p.properties, r.properties) && TextThen(r.properties, p.clientId, r.clientId)
    && WillThen(v5, r.clientId, p.will, r.will)
    && OptionalThen(r.will, p.username, r.username) && OptionalThen(r.username, p.password, r.password)
  }

  ghost predicate ConnectSpelled(s: seq<byte>, p: Packet, v: Version) {
    p.Connect? && exists level: byte, flags: byte, r :: ConnectParts(s, p, v, level, flags, r)
  }

  lemma FlagsMeanIff(flags: byte, p: Packet)
    requires p.Connect?
    ensures FlagsMean(flags, p)
       <==> && Bit(flags, 2) == p.cleanSession && Bit(flags, 4) == p.will.Some?
            && Bit(flags, 64) == p.password.Some? && Bit(flags, 128) == p.username.Some?
            && (p.will.Some? ==> QoSFrom(flags / 8 % 4) == p.will.value.qos && Bit(flags, 32) == p.will.value.retain)
  {
    if FlagsMean(flags, p) {
      var retain, q, reserved :| ConnectFlagsAre(flags, p, retain, q, reserved);
      FlagsAreBits(flags, p, retain, q, reserved);
    }
    var retain, q: nat, reserved := Bit(flags, 32), flags / 8 % 4, flags % 2;
    BitsAddUp(flags);
    if p.will.Some? {
      LevelIff(q, p.will.value.qos);
    }
    hide Level, QoSFrom;
    if && Bit(flags, 2) == p.cleanSession && Bit(flags, 4) == p.will.Some?
       && Bit(flags, 64) == p.password.Some? && Bit(flags, 128) == p.username.Some?
       && (p.will.Some? ==> QoSFrom(q) == p.will.value.qos && retain == p.will.value.retain)
    {
      assert ConnectFlagsAre(flags, p, retain, q, reserved);
    }
  }

  lemma BitsAddUp(b: byte)
    ensures b == (if Bit(b, 128) then 128 else 0) + (if Bit(b, 64) then 64 else 0) + (if Bit(b, 32) then 32 else 0)
                 + 8 * (b / 8 % 4) + (if Bit(b, 4) then 4 else 0) + (if Bit(b, 2) then 2 else 0) + b % 2
  {
    var b1, b2, b3, b5, b6, b7: nat := b / 2, b / 4, b / 8, b / 32, b / 64, b / 128;
    Shifted(b);
    assert b == 2 * b1 + b % 2 && b1 == 2 * b2 + b1 % 2 && b2 == 2 * b3 + b2 % 2 && b3 == 4 * b5 + b3 % 4;
    assert b5 == 2 * b6 + b5 % 2 && b6 == 2 * b7 + b6 % 2 && b7 == b7 % 2;
  }

  lemma Shifted(b: byte)
    ensures b / 2 / 2 == b / 4 && b / 4 / 2 == b / 8 && b / 8 / 4 == b / 32
    ensures b / 32 / 2 == b / 64 && b / 64 / 2 == b / 128 && b / 128 < 2
  {
  }

  lemma FlagsAreBits(flags: byte, p: Packet, retain: bool, q: nat, reserved: nat)
    requires p.Connect? && ConnectFlagsAre(flags, p, retain, q, reserved)
    ensures Bit(flags, 2) == p.cleanSession && Bit(flags, 4) == p.will.Some?
    ensures Bit(flags, 64) == p.password.Some? && Bit(flags, 128) == p.username.Some?
    ensures p.will.Some? ==> QoSFrom(flags / 8 % 4) == p.will.value.qos && Bit(flags, 32) == p.will.value.retain
  {
    BitsOf(if p.username.Some? then 1 else 0, if p.password.Some? then 1 else 0, if retain then 1 else 0, q,
           if p.will.Some? then 1 else 0, if p.cleanSession then 1 else 0, reserved);
    if p.will.Some? {
      LevelIff(q, p.will.value.qos);
    }
  }

  lemma BitsOf(u: nat, p: nat, r: nat, q: nat, w: nat, c: nat, x: nat)
    requires u < 2 && p < 2 && r < 2 && q < 4 && w < 2 && c < 2 && x < 2
    ensures var b := 128 * u + 64 * p + 32 * r + 8 * q + 4 * w + 2 * c + x;
            && b / 2 % 2 == c && b / 4 % 2 == w && b / 8 % 4 == q && b / 32 % 2 == r
            && b / 64 % 2 == p && b / 128 % 2 == u
  {
    var b := 128 * u + 64 * p + 32 * r + 8 * q + 4 * w + 2 * c + x;
    assert b / 2 == 2 * (w + 2 * q + 8 * r + 16 * p + 32 * u) + c;
    assert b / 4 == 2 * (q + 4 * r + 8 * p + 16 * u) + w;
    assert b / 8 == 4 * (r + 2 * p + 4 * u) + q;
    assert b / 32 == 2 * (p + 2 * u) + r;
    assert b / 64 == 2 * u + p;
    assert b / 128 == u;
  }

  predicate KnownName(name: seq<byte>) {
    name == PROTOCOL_NAME || name == OLD_PROTOCOL_NAME
  }

  lemma NameIff(s: seq<byte>, rest: seq<byte>)
    ensures NameThen(s, rest) <==> TextThen(s, PROTOCOL_NAME, rest) || TextThen(s, OLD_PROTOCOL_NAME, rest)
  {
    RoundTrip.NameIsText();
    OldNameIsText();
    hide ValidUtf8;
    DataThenIs(s, 0x00, 0x04, PROTOCOL_NAME, rest);
    DataThenIs(s, 0x00, 0x06, OLD_PROTOCOL_NAME, rest);
    assert [0x00, 0x04, 0x4D, 0x51, 0x54, 0x54] + rest == [0x00, 0x04] + (PROTOCOL_NAME + rest);
    assert [0x00, 0x06, 0x4D, 0x51, 0x49, 0x73, 0x64, 0x70] + rest == [0x00, 0x06] + (OLD_PROTOCOL_NAME + rest);
  }

  lemma DataThenIs(s: seq<byte>, high: byte, low: byte, data: seq<byte>, rest: seq<byte>)
    requires |data| == HighLow(high, low)
    ensures DataThen(s, data, rest) <==> s == [high, low] + (data + rest)
  {
    if |s| >= 2 {
      assert s == [s[0], s[1]] + s[2..];
    }
  }

  lemma OldNameIsText()
    ensures ValidUtf8(OLD_PROTOCOL_NAME)
  {
    AsciiGoesOn(0x70, []);
    AsciiGoesOn(0x64, [0x70]);
    AsciiGoesOn(0x73, [0x64, 0x70]);
    AsciiGoesOn(0x49, [0x73, 0x64, 0x70]);
    AsciiGoesOn(0x51, [0x49, 0x73, 0x64, 0x70]);
    AsciiGoesOn(0x4D, [0x51, 0x49, 0x73, 0x64, 0x70]);
  }

  lemma AsciiGoesOn(b: byte, later: seq<byte>)
    requires b < 0x80 && ValidUtf8(later)
    ensures ValidUtf8([b] + later)
  {
    assert ([b] + later)[1..] == later;
  }

  lemma HeadIsTaken(buf: seq<byte>, start: nat, level: byte, flags: byte, keepAlive: nat, rest: seq<byte>)
    requires start <= |buf| && HeadThen(buf[start..], level, flags, keepAlive, rest)
    ensures keepAlive < 0x1_0000
    ensures Took(ParseConnectHead(buf, start, |buf|), buf, (level, flags, keepAlive as u16), rest)
  {
    hide NameThen, ParseString, ParseConnectHead;
    var high: byte, low: byte :| NameThen(buf[start..], [level, flags, high, low] + rest)
                                 && keepAlive == HighLow(high, low);
    var tail := [level, flags, high, low] + rest;
    NameIff(buf[start..], tail);
    TextIff(buf, start, PROTOCOL_NAME, tail);
    TextIff(buf, start, OLD_PROTOCOL_NAME, tail);
    hide TextThen;
    var (name, c1) := ParseString(buf, start).value;
    FourBytes(buf, c1, level, flags, high, low, rest);
    HeadFolds(buf, start, name, c1);
  }

  lemma FourBytes(buf: seq<byte>, c: nat, a: byte, b: byte, high: byte, low: byte, rest: seq<byte>)
    requires c <= |buf|
    ensures buf[c..] == [a, b, high, low] + rest
       <==> c + 4 <= |buf| && [buf[c], buf[c + 1], buf[c + 2], buf[c + 3]] == [a, b, high, low] && rest == buf[c + 4..]
  {
    if buf[c..] == [a, b, high, low] + rest {
      assert buf[c..][0] == a && buf[c..][1] == b && buf[c..][2] == high && buf[c..][3] == low;
      assert buf[c..][4..] == rest;
    }
  }

  lemma HeadFolds(buf: seq<byte>, start: nat, name: seq<byte>, c1: nat)
    requires start <= |buf| && ParseString(buf, start) == Success((name, c1)) && KnownName(name) && c1 + 4 <= |buf|
    ensures ParseConnectHead(buf, start, |buf|)
         == Success(((buf[c1], buf[c1 + 1], HighLow(buf[c1 + 2], buf[c1 + 3])), c1 + 4))
  {
    hide ParseString;
  }

  lemma HeadUnfolds(buf: seq<byte>, start: nat)
    requires start <= |buf| && ParseConnectHead(buf, start, |buf|).Success?
    ensures ParseString(buf, start).Success?
    ensures var (name, c1) := ParseString(buf, start).value; KnownName(name) && c1 + 4 <= |buf|
  {
    hide ParseString;
  }

  lemma TakenIsHead(buf: seq<byte>, start: nat)
    requires start <= |buf| && ParseConnectHead(buf, start, |buf|).Success?
    ensures var ((level, flags, keepAlive), c) := ParseConnectHead(buf, start, |buf|).value;
            HeadThen(buf[start..], level, flags, keepAlive, buf[c..])
  {
    HeadUnfolds(buf, start);
    hide NameThen, ParseString, ParseConnectHead;
    var (name, c1) := ParseString(buf, start).value;
    HeadFolds(buf, start, name, c1);
    var ((level, flags, keepAlive), c) := ParseConnectHead(buf, start, |buf|).value;
    var tail := buf[c1..];
    NameIff(buf[start..], tail);
    TextIff(buf, start, name, tail);
    hide TextThen;
    FourBytes(buf, c1, level, flags, buf[c1 + 2], buf[c1 + 3], buf[c..]);
  }

  lemma WillIsTaken(v5: bool, buf: seq<byte>, c: nat, w: Will, rest: seq<byte>)
    requires c <= |buf| && WillThen(v5, buf[c..], Some(w), rest)
    ensures Took(ParseWill(true, w.qos, w.retain, v5, buf, c, |buf|), buf, Some(w), rest)
  {
    hide PropertiesThen, TextThen, DataThen, ParsePropertiesIf, ParseString, ParseBinary;
    var s1, s2 :| PropertiesThen(v5, buf[c..], w.properties, s1) && TextThen(s1, w.topic, s2)
                  && DataThen(s2, w.payload, rest);
    PropertiesIff(v5, buf, c, w.properties, s1);
    var c1 := ParsePropertiesIf(v5, buf, c, |buf|).value.1;
    TextIff(buf, c1, w.topic, s2);
    var c2 := ParseString(buf, c1).value.1;
    DataIff(buf, c2, w.payload, rest);
  }

  lemma TakenIsWill(v5: bool, qos: QoS, retain: bool, buf: seq<byte>, c: nat)
    requires c <= |buf| && ParseWill(true, qos, retain, v5, buf, c, |buf|).Success?
    ensures var (will, next) := ParseWill(true, qos, retain, v5, buf, c, |buf|).value;
            && will.Some? && will.value.qos == qos && will.value.retain == retain
            && WillThen(v5, buf[c..], will, buf[next..])
  {
    hide PropertiesThen, TextThen, DataThen, ParsePropertiesIf, ParseString, ParseBinary;
    var (props, c1) := ParsePropertiesIf(v5, buf, c, |buf|).value;
    var (topic, c2) := ParseString(buf, c1).value;
    var (payload, c3) := ParseBinary(buf, c2).value;
    PropertiesIff(v5, buf, c, props, buf[c1..]);
    TextIff(buf, c1, topic, buf[c2..]);
    DataIff(buf, c2, payload, buf[c3..]);
  }

  lemma WillIff(v5: bool, qos: QoS, retain: bool, buf: seq<byte>, c: nat, will: Option<Will>, rest: seq<byte>)
    requires c <= |buf|
    ensures WillThen(v5, buf[c..], will, rest) && (will.Some? ==> will.value.qos == qos && will.value.retain == retain)
       <==> Took(ParseWill(will.Some?, qos, retain, v5, buf, c, |buf|), buf, will, rest)
  {
    match will
    case None =>
    case Some(w) =>
      hide ParseWill, WillThen;
      if WillThen(v5, buf[c..], will, rest) && w.qos == qos && w.retain == retain {
        WillIsTaken(v5, buf, c, w, rest);
      }
      if Took(ParseWill(true, qos, retain, v5, buf, c, |buf|), buf, will, rest) {
        TakenIsWill(v5, qos, retain, buf, c);
      }
  }

  lemma ConnectIsTaken(buf: seq<byte>, start: nat, p: Packet, v: Version)
    requires Whole(buf, start) && ConnectSpelled(buf[start..], p, v)
    ensures DecodeConnect(buf, v) == Success(p)
  {
    hide Content, ParseConnectHead, ParsePropertiesIf, ParseWill, ParseOptionalString, ParseString, Bit, QoSFrom,
      HeadThen, FlagsMean, PropertiesThen, TextThen, WillThen, OptionalThen;
    var level: byte, flags: byte, r :| ConnectParts(buf[start..], p, v, level, flags, r);
    var v5 := v == V5 || level == 5;
    HeadIsTaken(buf, start, level, flags, p.keepAlive, r.head);
    FlagsMeanIff(flags, p);
    var c1 := ParseConnectHead(buf, start, |buf|).value.1;
    PropertiesIff(v5, buf, c1, p.properties, r.properties);
    var c2 := ParsePropertiesIf(v5, buf, c1, |buf|).value.1;
    TextIff(buf, c2, p.clientId, r.clientId);
    var c3 := ParseString(buf, c2).value.1;
    WillIff(v5, QoSFrom(flags / 8 % 4), Bit(flags, 32), buf, c3, p.will, r.will);
    var c4 := ParseWill(p.will.Some?, QoSFrom(flags / 8 % 4), Bit(flags, 32), v5, buf, c3, |buf|).value.1;
    OptionalIff(buf, c4, p.username, r.username);
    var c5 := ParseOptionalString(p.username.Some?, buf, c4).value.1;
    OptionalIff(buf, c5, p.password, r.password);
  }

  /** The cursors of a CONNECT that was read. */
  lemma ConnectCursors(buf: seq<byte>, start: nat, p: Packet, v: Version)
    returns (level: byte, flags: byte, c1: nat, c2: nat, c3: nat, c4: nat, c5: nat, c6: nat)
    requires Whole(buf, start) && DecodeConnect(buf, v) == Success(p)
    ensures p.Connect? && p.cleanSession == Bit(flags, 2)
    ensures ParseConnectHead(buf, start, |buf|) == Success(((level, flags, p.keepAlive), c1))
    ensures c1 <= |buf| && c2 <= |buf| && c3 <= |buf| && c4 <= |buf| && c5 <= |buf| && c6 <= |buf|
    ensures var v5 := v == V5 || level == 5;
            && ParsePropertiesIf(v5, buf, c1, |buf|) == Success((p.properties, c2))
            && ParseString(buf, c2) == Success((p.clientId, c3))
            && ParseWill(Bit(flags, 4), QoSFrom(flags / 8 % 4), Bit(flags, 32), v5, buf, c3, |buf|)
            == Success((p.will, c4))
    ensures ParseOptionalString(Bit(flags, 128), buf, c4) == Success((p.username, c5))
    ensures ParseOptionalString(Bit(flags, 64), buf, c5) == Success((p.password, c6))
  {
    hide Content, ParseConnectHead, ParsePropertiesIf, ParseWill, ParseOptionalString, ParseString, Bit, QoSFrom;
    var ((l, f, _), h) := ParseConnectHead(buf, start, |buf|).value;
    level, flags, c1 := l, f, h;
    var v5 := v == V5 || level == 5;
    c2 := ParsePropertiesIf(v5, buf, c1, |buf|).value.1;
    c3 := ParseString(buf, c2).value.1;
    c4 := ParseWill(Bit(flags, 4), QoSFrom(flags / 8 % 4), Bit(flags, 32), v5, buf, c3, |buf|).value.1;
    c5 := ParseOptionalString(Bit(flags, 128), buf, c4).value.1;
    c6 := ParseOptionalString(Bit(flags, 64), buf, c5).value.1;
  }

  lemma TakenIsConnect(buf: seq<byte>, start: nat, p: Packet, v: Version)
    requires Whole(buf, start) && DecodeConnect(buf, v) == Success(p)
    ensures ConnectSpelled(buf[start..], p, v)
  {
    hide Content, DecodeConnect, ParseConnectHead, ParsePropertiesIf, ParseWill, ParseOptionalString, ParseString, Bit,
      QoSFrom, HeadThen, FlagsMean, PropertiesThen, TextThen, WillThen, OptionalThen;
    var level, flags, c1, c2, c3, c4, c5, c6 := ConnectCursors(buf, start, p, v);
    var v5 := v == V5 || level == 5;
    TakenIsHead(buf, start);
    PropertiesIff(v5, buf, c1, p.properties, buf[c2..]);
    TextIff(buf, c2, p.clientId, buf[c3..]);
    TakenIsTail(buf, c3, flags, v5, p.will, c4, p.username, c5, p.password, c6);
    FlagsMeanIff(flags, p);
    var r := ConnectRests(buf[c1..], buf[c2..], buf[c3..], buf[c4..], buf[c5..], buf[c6..]);
    assert ConnectParts(buf[start..], p, v, level, flags, r);
  }

  /** Will, user name and password, each of which the flags announce. */
  lemma TakenIsTail(buf: seq<byte>, c3: nat, flags: byte, v5: bool, will: Option<Will>, c4: nat,
                    username: Option<seq<byte>>, c5: nat, password: Option<seq<byte>>, c6: nat)
    requires c3 <= |buf| && c4 <= |buf| && c5 <= |buf| && c6 <= |buf|
    requires ParseWill(Bit(flags, 4), QoSFrom(flags / 8 % 4), Bit(flags, 32), v5, buf, c3, |buf|) == Success((will, c4))
    requires ParseOptionalString(Bit(flags, 128), buf, c4) == Success((username, c5))
    requires ParseOptionalString(Bit(flags, 64), buf, c5) == Success((password, c6))
    ensures WillThen(v5, buf[c3..], will, buf[c4..]) && will.Some? == Bit(flags, 4)
    ensures will.Some? ==> will.value.qos == QoSFrom(flags / 8 % 4) && will.value.retain == Bit(flags, 32)
    ensures OptionalThen(buf[c4..], username, buf[c5..]) && username.Some? == Bit(flags, 128)
    ensures OptionalThen(buf[c5..], password, buf[c6..]) && password.Some? == Bit(flags, 64)
  {
    hide ParseWill, ParseOptionalString, Bit, QoSFrom, WillThen, OptionalThen;
    var qos, retain := QoSFrom(flags / 8 % 4), Bit(flags, 32);
    WillIsThere(Bit(flags, 4), v5, qos, retain, buf, c3);
    WillIff(v5, qos, retain, buf, c3, will, buf[c4..]);
    OptionalIsThere(Bit(flags, 128), buf, c4);
    OptionalIff(buf, c4, username, buf[c5..]);
    OptionalIsThere(Bit(flags, 64), buf, c5);
    OptionalIff(buf, c5, password, buf[c6..]);
  }

  lemma WillIsThere(present: bool, v5: bool, qos: QoS, retain: bool, buf: seq<byte>, c: nat)
    requires c <= |buf|
    ensures var r := ParseWill(present, qos, retain, v5, buf, c, |buf|);
            r.Success? ==> && r.value.0.Some? == present
                           && (present ==> r.value.0.value.qos == qos && r.value.0.value.retain == retain)
  {
    hide ParsePropertiesIf, ParseString, ParseBinary;
  }

  // ---- Every packet ----

  /** Type in the high half of the first byte; the low half counts in PUBLISH only. */
  predicate Typed(first: byte, packetType: nat) {
    16 * packetType <= first < 16 * packetType + 16
  }

  /** The first byte and the content of a frame stand for `p`. */
  ghost predicate Spells(first: byte, s: seq<byte>, p: Packet, v: Version) {
    match p
    case Connect(_, _, _, _, _, _, _) => Typed(first, 1) && ConnectSpelled(s, p, v)
    case ConnAck(_, _, _) => Typed(first, 2) && ConnAckSpelled(s, p, v)
    case Publish(_, _, _, _, _, _, _) => PublishSpelled(first, s, p, v)
    case PubAck(a) => Typed(first, 4) && AckSpelled(s, a, v)
    case PubRec(a) => Typed(first, 5) && AckSpelled(s, a, v)
    case PubRel(a) => Typed(first, 6) && AckSpelled(s, a, v)
    case PubComp(a) => Typed(first, 7) && AckSpelled(s, a, v)
    case Subscribe(id, filters, ps) => Typed(first, 8) && |filters| <= 8 && SubscribeSpelled(s, id, filters, ps, v)
    case SubAck(id, codes, ps) => Typed(first, 9) && |codes| <= 8 && ListAfter(s, id, ps, v, codes)
    case Unsubscribe(id, topics, ps) => Typed(first, 10) && |topics| <= 8 && UnsubscribeSpelled(s, id, topics, ps, v)
    case UnsubAck(id, codes, ps) => Typed(first, 11) && |codes| <= 8 && ListAfter(s, id, ps, v, codes)
    case PingReq => Typed(first, 12)
    case PingResp => Typed(first, 13)
    case Disconnect(reason, ps) => Typed(first, 14) && ReasonSpelled(s, reason, ps, v)
  }

  lemma DecodedIff(buf: seq<byte>, start: nat, p: Packet, v: Version)
    requires Whole(buf, start) && |buf| > 1
    ensures DecodePacket(buf, v) == Success(p) <==> Spells(buf[0], buf[start..], p, v)
  {
    hide DecodePacket, ConnectSpelled, ConnAckSpelled, AckSpelled, SubscribeSpelled, ListAfter, UnsubscribeSpelled,
      ReasonSpelled, Content, PublishParts;
    var packetType := buf[0] / 16;
    if 4 <= packetType <= 7 {
      AckPacketsIff(buf, start, p, v);
    } else if packetType == 9 || packetType == 11 {
      CodesPacketsIff(buf, start, p, v);
    } else {
      OtherPacketsIff(buf, start, p, v);
    }
  }

  lemma ConnectIff(buf: seq<byte>, start: nat, p: Packet, v: Version)
    requires Whole(buf, start)
    ensures DecodeConnect(buf, v) == Success(p) <==> p.Connect? && ConnectSpelled(buf[start..], p, v)
  {
    hide Content, DecodeConnect, ConnectParts;
    if ConnectSpelled(buf[start..], p, v) {
      ConnectIsTaken(buf, start, p, v);
    }
    if DecodeConnect(buf, v) == Success(p) {
      TakenIsConnect(buf, start, p, v);
    }
  }

  lemma SubscribeIff(buf: seq<byte>, start: nat, p: Packet, v: Version)
    requires Whole(buf, start)
    ensures DecodeSubscribe(buf, v) == Success(p)
       <==> && p.Subscribe? && |p.filters| <= 8
            && SubscribeSpelled(buf[start..], p.subscribeId, p.filters, p.properties, v)
  {
    hide Content, DecodeSubscribe, SubscribeSpelled;
    if p.Subscribe? && SubscribeSpelled(buf[start..], p.subscribeId, p.filters, p.properties, v) {
      SubscribeIsTaken(buf, start, p.subscribeId, p.filters, p.properties, v);
    }
    if DecodeSubscribe(buf, v) == Success(p) {
      TakenIsSubscribe(buf, start, p, v);
    }
  }

  lemma UnsubscribeIff(buf: seq<byte>, start: nat, p: Packet, v: Version)
    requires Whole(buf, start)
    ensures DecodeUnsubscribe(buf, v) == Success(p)
       <==> && p.Unsubscribe? && |p.topics| <= 8
            && UnsubscribeSpelled(buf[start..], p.unsubscribeId, p.topics, p.properties, v)
  {
    hide Content, DecodeUnsubscribe, UnsubscribeSpelled;
    if p.Unsubscribe? && UnsubscribeSpelled(buf[start..], p.unsubscribeId, p.topics, p.properties, v) {
      UnsubscribeIsTaken(buf, start, p.unsubscribeId, p.topics, p.properties, v);
    }
    if DecodeUnsubscribe(buf, v) == Success(p) {
      TakenIsUnsubscribe(buf, start, p, v);
    }
  }

  lemma CodesIff(buf: seq<byte>, start: nat, id: u16, codes: seq<byte>, ps: seq<Property>, v: Version)
    requires Whole(buf, start)
    ensures DecodeCodes(buf, v) == Success((id, codes, ps))
       <==> |codes| <= 8 && ListAfter(buf[start..], id, ps, v, codes)
  {
    hide Content, DecodeCodes, ListAfter;
    CodesAre(buf, start, id, codes, ps, v);
    if DecodeCodes(buf, v) == Success((id, codes, ps)) && |codes| > 8 {
      assert false;
    }
  }

  lemma CodesPacketsIff(buf: seq<byte>, start: nat, p: Packet, v: Version)
    requires Whole(buf, start) && buf[0] / 16 in {9, 11}
    ensures DecodePacket(buf, v) == Success(p)
       <==> && (if buf[0] / 16 == 9 then p.SubAck? else p.UnsubAck?)
            && |p.reasonCodes| <= 8 && ListAfter(buf[start..], p.ackedId, p.properties, v, p.reasonCodes)
  {
    hide Content, DecodeCodes, ListAfter;
    if p.SubAck? || p.UnsubAck? {
      CodesIff(buf, start, p.ackedId, p.reasonCodes, p.properties, v);
    }
    if DecodeCodes(buf, v).Success? {
      var (id, codes, ps) := DecodeCodes(buf, v).value;
      CodesIff(buf, start, id, codes, ps, v);
    }
  }

  lemma AckPacketsIff(buf: seq<byte>, start: nat, p: Packet, v: Version)
    requires Whole(buf, start) && 4 <= buf[0] / 16 <= 7
    ensures DecodePacket(buf, v) == Success(p)
       <==> && (match buf[0] / 16
                case 4 => p.PubAck?
                case 5 => p.PubRec?
                case 6 => p.PubRel?
                case _ => p.PubComp?)
            && AckSpelled(buf[start..], p.ack, v)
  {
    hide Content, DecodeAck, AckSpelled;
    if p.PubAck? || p.PubRec? || p.PubRel? || p.PubComp? {
      AckIff(buf, start, p.ack, v);
    }
    if DecodeAck(buf, v).Success? {
      AckIff(buf, start, DecodeAck(buf, v).value, v);
    }
  }

  lemma OtherPacketsIff(buf: seq<byte>, start: nat, p: Packet, v: Version)
    requires Whole(buf, start) && |buf| > 1 && buf[0] / 16 !in {4, 5, 6, 7, 9, 11}
    ensures DecodePacket(buf, v) == Success(p)
       <==> match buf[0] / 16
            case 1 => p.Connect? && ConnectSpelled(buf[start..], p, v)
            case 2 => p.ConnAck? && ConnAckSpelled(buf[start..], p, v)
            case 3 => PublishSpelled(buf[0], buf[start..], p, v)
            case 8 =>
              && p.Subscribe? && |p.filters| <= 8
              && SubscribeSpelled(buf[start..], p.subscribeId, p.filters, p.properties, v)
            case 10 =>
              && p.Unsubscribe? && |p.topics| <= 8
              && UnsubscribeSpelled(buf[start..], p.unsubscribeId, p.topics, p.properties, v)
            case 12 => p == PingReq
            case 13 => p == PingResp
            case 14 => p.Disconnect? && ReasonSpelled(buf[start..], p.disconnectReason, p.properties, v)
            case _ => false
  {
    hide DecodeConnect, DecodeConnAck, DecodePublish, DecodeSubscribe, DecodeUnsubscribe, DecodeDisconnect,
      ConnectSpelled, ConnAckSpelled, SubscribeSpelled, UnsubscribeSpelled, PublishSpelled, ReasonSpelled, Content;
    match buf[0] / 16
    case 1 => ConnectIff(buf, start, p, v);
    case 2 => ConnAckIff(buf, start, p, v);
    case 3 => PublishIff(buf, start, p, v);
    case 8 => SubscribeIff(buf, start, p, v);
    case 10 => UnsubscribeIff(buf, start, p, v);
    case 14 => DisconnectIff(buf, start, p, v);
    case _ =>
  }

  /** A frame: first byte, remaining length in any of its spellings, content, and nothing behind it. */
  predicate FrameOf(buf: seq<byte>, first: byte, field: seq<byte>, s: seq<byte>) {
    buf == [first] + field + s && VarInt.Spells(field, |s|)
  }

  lemma FrameIsWhole(buf: seq<byte>, first: byte, field: seq<byte>, s: seq<byte>)
    requires FrameOf(buf, first, field, s)
    ensures Whole(buf, 1 + |field|) && buf[0] == first && buf[1 + |field|..] == s && |buf| > 1
  {
    assert |field| > 0;
    hide VarInt.Spells, VarInt.Read;
    Halves([first] + field, s);
    assert buf[1..] == field + s;
    Halves(field, s);
    VarInt.ReadIff(buf[1..], |s|, |field|);
  }

  /** A whole frame is accepted as `p` if and only if its first byte and its content spell `p`. */
  lemma AcceptedIff(buf: seq<byte>, first: byte, field: seq<byte>, s: seq<byte>, p: Packet, v: Version)
    requires FrameOf(buf, first, field, s)
    ensures Decode(buf, v) == Success(Some(p)) <==> Spells(first, s, p, v)
  {
    hide FrameOf, DecodePacket, Spells, Content;
    FrameIsWhole(buf, first, field, s);
    DecodedIff(buf, 1 + |field|, p, v);
  }

  // ---- What the encoders write ----

  /** Every encoding is a frame, and its content spells the packet. */
  lemma EncodingSpells(p: Packet, v: Version)
    requires Carried(p, v) && Sendable(p, v)
    ensures FrameOf(Encoded(p, v), FirstByte(p), VarInt.Encoding(|Body(p, v)|), Body(p, v))
    ensures Spells(FirstByte(p), Body(p, v), p, v)
  {
    hide Carried, Body, FirstByte, Spells, Decode, VarInt.Spells, VarInt.Read;
    var s, field := Body(p, v), VarInt.Encoding(|Body(p, v)|);
    FrameIs(FirstByte(p), s);
    VarInt.ReadInvertsEncoding(|s|, []);
    VarInt.ReadIff(field + [], |s|, |field|);
    assert (field + [])[..|field|] == field;
    RoundTrip.DecodeInvertsEncoded(p, v, []);
    assert Encoded(p, v) + [] == Encoded(p, v);
    AcceptedIff(Encoded(p, v), FirstByte(p), field, s, p, v);
  }

  /** The reserved bits in the low half of the first byte (section 2.1.3): 2 for three types, 0 for the others. */
  lemma ReservedBits(p: Packet)
    ensures !p.Publish? ==> FirstByte(p) % 16 == if p.PubRel? || p.Subscribe? || p.Unsubscribe? then 2 else 0
  {
  }

  /** A CONNECT opens with the name "MQTT" and the level of its version, and the reserved flag is clear. */
  lemma ConnectOpens(p: Packet, v: Version)
    requires p.Connect?
    ensures |Body(p, v)| >= 12
    ensures Body(p, v)[..7] == [0x00, 0x04, 0x4D, 0x51, 0x54, 0x54, if v == V5 then 5 else 4]
    ensures Body(p, v)[7] % 2 == 0
  {
    HeadIsTen(p, v);
    ReservedFlagIsClear(p);
    HeadIsFirst(p, v);
    hide ConnectHead, ConnectFlags, Body;
    var head := ConnectHead(p, v);
    assert Body(p, v)[..10] == head;
    assert Body(p, v)[..7] == Body(p, v)[..10][..7] && Body(p, v)[7] == Body(p, v)[..10][7];
  }

  lemma HeadIsFirst(p: Packet, v: Version)
    requires p.Connect?
    ensures ConnectHead(p, v) <= Body(p, v) && |Body(p, v)| >= |ConnectHead(p, v)| + 2
  {
    hide ConnectHead, PropertyField, WillBytes, OptionalText, Prefixed;
    var s1 := ConnectHead(p, v) + PropertyField(p.properties, v);
    var s2 := s1 + Prefixed(p.clientId);
    var s3 := s2 + WillBytes(p.will, v);
    var s4 := s3 + OptionalText(p.username);
    assert ConnectHead(p, v) <= s1 <= s2 <= s3 <= s4 <= Body(p, v);
  }

  lemma HeadIsTen(p: Packet, v: Version)
    requires p.Connect?
    ensures |ConnectHead(p, v)| == 10
    ensures ConnectHead(p, v)[..7] == [0x00, 0x04, 0x4D, 0x51, 0x54, 0x54, if v == V5 then 5 else 4]
    ensures ConnectHead(p, v)[7] == ConnectFlags(p.cleanSession, p.username.Some?, p.password.Some?, p.will)
  {
    hide ConnectFlags;
  }

  lemma ReservedFlagIsClear(p: Packet)
    requires p.Connect?
    ensures ConnectFlags(p.cleanSession, p.username.Some?, p.password.Some?, p.will) % 2 == 0
  {
  }

  /** Packets at their defaults take the shortest form. */
  lemma ShortAcks(id: u16, v: Version)
    ensures Encoded(PubAck(Ack(id, 0, [])), v) == [0x40, 0x02, id / 256, id % 256]
    ensures Encoded(PubRec(Ack(id, 0, [])), v) == [0x50, 0x02, id / 256, id % 256]
    ensures Encoded(PubRel(Ack(id, 0, [])), v) == [0x62, 0x02, id / 256, id % 256]
    ensures Encoded(PubComp(Ack(id, 0, [])), v) == [0x70, 0x02, id / 256, id % 256]
  {
    var body := BigEndian16(id);
    assert AckBytes(Ack(id, 0, []), v) == body + [];
    assert body + [] == body && VarInt.Encoding(2) == [2];
    FrameIs(0x40, body);
    FrameIs(0x50, body);
    FrameIs(0x62, body);
    FrameIs(0x70, body);
    hide Frame, AckBytes;
  }

  lemma ShortForms(v: Version)
    ensures Encoded(PingReq, v) == [0xC0, 0x00] && Encoded(PingResp, v) == [0xD0, 0x00]
    ensures Encoded(Disconnect(0, []), v) == [0xE0, 0x00]
    ensures Encoded(ConnAck(false, 0, []), v) == if v == V5 then [0x20, 0x03, 0, 0, 0] else [0x20, 0x02, 0, 0]
  {
    assert PropertyBytes([]) == [];
    assert VarInt.Encoding(0) == [0] && VarInt.Encoding(2) == [2] && VarInt.Encoding(3) == [3];
  }

  /** A publish above quality 0 that was given no identifier goes out under 1. */
  lemma MissingIdIsOne(p: Packet, v: Version)
    requires p.Publish? && p.packetId.None?
    ensures Encoded(p, v) == Encoded(p.(packetId := Some(1)), v)
  {
    hide Frame, PropertyField, Prefixed;
  }

  /** The two versions before 5 are the same on the wire. */
  lemma OldVersionsEncodeAlike(p: Packet)
    ensures Encoded(p, V3) == Encoded(p, V3_1_1)
  {
    hide Frame, FirstByte, Prefixed, FilterBytes, TopicBytes, Block, BigEndian16, ConnectFlags;
  }

  lemma OldVersionsDecodeAlike(buf: seq<byte>)
    ensures Decode(buf, V3) == Decode(buf, V3_1_1)
  {
    hide Content, ParseString, ParseConnectHead, ParseWill, ParseOptionalString, ParseProperties, ParseId,
      ParseFilters, ParseTopics, ParseCodes, Bit, QoSFrom;
  }
}
