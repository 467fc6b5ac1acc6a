/** MQTT 5.0 property blocks (crates/mqtt-packet/src/properties.rs; section 2.2.2 of MQTT 5.0). */
module Properties {
  import opened Wrappers
  import opened Bytes
  import opened PacketErrors
  import opened Fields
  import VarInt

  datatype Property = Property(id: byte, data: seq<byte>)

  /** Capacity of the property vectors. */
  const MAX_PROPERTIES: nat := 8

  /** How the length of a property's data is found. */
  datatype Shape = Fixed(size: nat) | Prefixed16 | StringPair | VarIntData

  function ShapeOf(id: byte): (shape: Shape)
    ensures shape.Fixed? ==> 1 <= shape.size <= 4
  {
    match id
    case 0x01 | 0x17 | 0x24 | 0x25 | 0x28 | 0x29 | 0x2A => Fixed(1)
    case 0x13 | 0x21 | 0x22 => Fixed(2)
    case 0x02 | 0x11 | 0x18 | 0x23 | 0x27 => Fixed(4)
    case 0x03 | 0x08 | 0x12 | 0x15 | 0x1A | 0x1C | 0x1F | 0x09 | 0x16 => Prefixed16
    case 0x26 => StringPair
    case 0x0B => VarIntData
    case _ => Fixed(1)
  }

  /** How many bytes from index `c` on, just after the identifier, belong to the property. */
  function DataLength(shape: Shape, buf: seq<byte>, c: nat): (r: Result<nat, PacketError>)
    requires c <= |buf|
  {
    match shape
    case Fixed(size) => Success(size)
    case Prefixed16 =>
      if c + 2 > |buf| then Failure(MalformedPacket) else Success(2 + FromBigEndian16(buf[c], buf[c + 1]))
    case StringPair =>
      if c + 2 > |buf| then Failure(MalformedPacket)
      else
        var valStart: nat := c + 2 + FromBigEndian16(buf[c], buf[c + 1]);
        if valStart + 2 > |buf| then Failure(MalformedPacket)
        else Success(valStart - c + 2 + FromBigEndian16(buf[valStart], buf[valStart + 1]))
    case VarIntData =>
      var (_, end) :- ParseVarInt(buf, c);
      Success(end - c)
  }

  /** The data has the shape its identifier demands. */
  predicate Shaped(p: Property) {
    DataLength(ShapeOf(p.id), p.data, 0) == Success(|p.data|)
  }

  predicate WellFormed(ps: seq<Property>) {
    |ps| <= MAX_PROPERTIES && forall p :: p in ps ==> Shaped(p)
  }

  function PropertyBytes(ps: seq<Property>): (s: seq<byte>) {
    if ps == [] then [] else [ps[0].id] + ps[0].data + PropertyBytes(ps[1..])
  }

  /** A property block: total length, then the properties. */
  function Block(ps: seq<Property>): (s: seq<byte>)
    ensures s != []
  {
    VarInt.Encoding(|PropertyBytes(ps)|) + PropertyBytes(ps)
  }

  /** Reads properties up to `end` behind those read so far. */
  function ParseEach(buf: seq<byte>, c: nat, end: nat, sofar: seq<Property>): (p: Parsed<seq<Property>>)
    requires c <= end <= |buf|
    ensures p.Success? ==> p.value.1 == end
    decreases end - c
  {
    if c == end then Success((sofar, c))
    else
      var n :- DataLength(ShapeOf(buf[c]), buf, c + 1);
      var next := c + 1 + n;
      if next > end then Failure(MalformedPacket)
      else if |sofar| >= MAX_PROPERTIES then Failure(TooManyProperties)
      else ParseEach(buf, next, end, sofar + [Property(buf[c], buf[c + 1..next])])
  }

  function ParseProperties(buf: seq<byte>, c: nat): (p: Parsed<seq<Property>>)
    requires c <= |buf|
    ensures p.Success? ==> c < p.value.1 <= |buf|
  {
    var (len, start) :- ParseVarInt(buf, c);
    if start + len > |buf| then Failure(IncompletePacket)
    else ParseEach(buf, start, start + len, [])
  }

  // ---- Which data a property has (table 2-4 in section 2.2.2.2 of MQTT 5.0) ----

  const BYTE_IDS: set<byte> := {0x01, 0x17, 0x19, 0x24, 0x25, 0x28, 0x29, 0x2A}
  const TWO_BYTE_IDS: set<byte> := {0x13, 0x21, 0x22}
  const FOUR_BYTE_IDS: set<byte> := {0x02, 0x11, 0x18, 0x27}
  const TEXT_OR_BINARY_IDS: set<byte> := {0x03, 0x08, 0x09, 0x12, 0x15, 0x16, 0x1A, 0x1C, 0x1F}
  const USER_PROPERTY: byte := 0x26
  const SUBSCRIPTION_IDENTIFIER: byte := 0x0B

  /** Length-prefixed data and nothing behind it; the length comes with its high byte first. */
  ghost predicate IsPrefixed(data: seq<byte>) {
    exists high: byte, low: byte, s: seq<byte> :: IsWithLength(data, high, low, s)
  }

  predicate IsWithLength(data: seq<byte>, high: byte, low: byte, s: seq<byte>) {
    data == [high, low] + s && |s| == HighLow(high, low)
  }

  ghost predicate IsPair(data: seq<byte>) {
    exists k: nat :: k <= |data| && IsPrefixed(data[..k]) && IsPrefixed(data[k..])
  }

  lemma PrefixedIff(data: seq<byte>)
    ensures IsPrefixed(data) <==> |data| >= 2 && |data| == 2 + HighLow(data[0], data[1])
  {
    if |data| >= 2 && |data| == 2 + HighLow(data[0], data[1]) {
      assert data == [data[0], data[1]] + data[2..];
      assert IsWithLength(data, data[0], data[1], data[2..]);
    }
  }

  lemma PairIff(data: seq<byte>)
    ensures IsPair(data)
       <==> |data| >= 2 && 2 + HighLow(data[0], data[1]) + 2 <= |data|
            && var k := 2 + HighLow(data[0], data[1]); |data| == k + 2 + HighLow(data[k], data[k + 1])
  {
    if IsPair(data) {
      var k: nat :| k <= |data| && IsPrefixed(data[..k]) && IsPrefixed(data[k..]);
      hide IsPrefixed;
      PrefixedIff(data[..k]);
      PrefixedIff(data[k..]);
    }
    if |data| >= 2 && 2 + HighLow(data[0], data[1]) + 2 <= |data| {
      var k: nat := 2 + HighLow(data[0], data[1]);
      PrefixedIff(data[..k]);
      PrefixedIff(data[k..]);
      hide IsPrefixed;
    }
  }

  /**
   The data a property may have, by its identifier. Two things differ from the standard: a property with an unknown
   identifier is one byte, and the code takes four bytes for 0x23, Topic Alias, which the standard gives two.
   */
  lemma ShapedIff(id: byte, data: seq<byte>)
    ensures Shaped(Property(id, data))
       <==> if id in TWO_BYTE_IDS then |data| == 2
            else if id in FOUR_BYTE_IDS || id == 0x23 then |data| == 4
            else if id in TEXT_OR_BINARY_IDS then IsPrefixed(data)
            else if id == USER_PROPERTY then IsPair(data)
            else if id == SUBSCRIPTION_IDENTIFIER then
              VarInt.Read(data).Success? && VarInt.Read(data).value.1 == |data|
            else |data| == 1
  {
    hide IsPrefixed, IsPair, VarInt.Read;
    PrefixedIff(data);
    PairIff(data);
    assert data[0..] == data;
    hide IsWithLength;
  }

  /** A block that holds a Topic Alias as the standard writes it, in two bytes, is refused. */
  lemma TopicAliasIsRefused(buf: seq<byte>, c: nat, high: byte, low: byte)
    requires At(buf, c, [0x03, 0x23, high, low])
    ensures ParseProperties(buf, c) == Failure(MalformedPacket)
  {
    assert buf[c..c + 4][0] == buf[c] && buf[c..c + 4][1] == buf[c + 1];
    assert buf[c..][0] == 0x03;
    assert ParseVarInt(buf, c) == Success((3, c + 1));
  }

  /** All one-byte integers of the standard are read as such, though one of them only as an unknown identifier. */
  lemma BytesAreBytes(id: byte, data: seq<byte>)
    requires id in BYTE_IDS
    ensures Shaped(Property(id, data)) <==> |data| == 1
  {
    ShapedIff(id, data);
  }

  /** The length of shaped data is found wherever the data lies. */
  lemma DataLengthAt(p: Property, buf: seq<byte>, c: nat)
    requires Shaped(p) && At(buf, c, p.data)
    ensures DataLength(ShapeOf(p.id), buf, c) == Success(|p.data|)
  {
    assert forall i :: 0 <= i < |p.data| ==> p.data[i] == buf[c + i];
    if ShapeOf(p.id).VarIntData? {
      assert p.data[0..] == p.data && buf[c..] == p.data + buf[c + |p.data|..];
      VarInt.ReadStable(p.data, buf[c + |p.data|..]);
    }
  }

  /** A shaped property lying at `c` is read whole. */
  lemma ParseOne(p: Property, buf: seq<byte>, c: nat, end: nat)
    requires Shaped(p)
    requires At(buf, c, [p.id] + p.data) && c + 1 + |p.data| <= end <= |buf|
    ensures buf[c] == p.id && buf[c + 1..c + 1 + |p.data|] == p.data
    ensures DataLength(ShapeOf(buf[c]), buf, c + 1) == Success(|p.data|)
  {
    AtSplit(buf, c, [p.id], p.data);
    assert buf[c] == buf[c..c + 1][0];
    DataLengthAt(p, buf, c + 1);
  }

  lemma {:induction false} ParseInvertsEach(ps: seq<Property>, buf: seq<byte>, c: nat, end: nat, sofar: seq<Property>)
    requires |sofar| + |ps| <= MAX_PROPERTIES && forall p :: p in ps ==> Shaped(p)
    requires At(buf, c, PropertyBytes(ps)) && end == c + |PropertyBytes(ps)|
    ensures ParseEach(buf, c, end, sofar) == Success((sofar + ps, end))
  {
    hide DataLength, Shaped, At, ShapeOf;
    if ps == [] {
      assert sofar + ps == sofar;
    } else {
      var p := ps[0];
      AtSplit(buf, c, [p.id] + p.data, PropertyBytes(ps[1..]));
      ParseOne(p, buf, c, end);
      ParseInvertsEach(ps[1..], buf, c + 1 + |p.data|, end, sofar + [p]);
      assert sofar + [p] + ps[1..] == sofar + ps;
    }
  }

  /** Reading a block that was written, anywhere in a buffer, gives it back and stops at its end. */
  lemma ParseInvertsBlock(ps: seq<Property>, buf: seq<byte>, c: nat)
    requires WellFormed(ps) && |PropertyBytes(ps)| <= VarInt.MAX_VARINT
    requires At(buf, c, Block(ps))
    ensures ParseProperties(buf, c) == Success((ps, c + |Block(ps)|))
  {
    hide DataLength, Shaped, ParseVarInt, ParseEach;
    var body := PropertyBytes(ps);
    AtSplit(buf, c, VarInt.Encoding(|body|), body);
    ParseInvertsVarInt(buf, c, |body|);
    var start := c + |VarInt.Encoding(|body|)|;
    ParseInvertsEach(ps, buf, start, start + |body|, []);
    assert [] + ps == ps;
  }

  /** Only well-formed lists are ever read. */
  lemma {:induction false} EachIsShaped(buf: seq<byte>, c: nat, end: nat, sofar: seq<Property>)
    requires c <= end <= |buf| && WellFormed(sofar)
    ensures ParseEach(buf, c, end, sofar).Success? ==> WellFormed(ParseEach(buf, c, end, sofar).value.0)
    decreases end - c
  {
    hide DataLength, Shaped, ShapeOf;
    var length := if c < end then DataLength(ShapeOf(buf[c]), buf, c + 1) else Failure(MalformedPacket);
    if length.Success? && c + 1 + length.value <= end && |sofar| < MAX_PROPERTIES {
      var next := c + 1 + length.value;
      var p := Property(buf[c], buf[c + 1..next]);
      ReadDataIsShaped(p, buf, c + 1);
      EachIsShaped(buf, next, end, sofar + [p]);
    }
  }

  lemma ReadDataIsShaped(p: Property, buf: seq<byte>, c: nat)
    requires At(buf, c, p.data) && DataLength(ShapeOf(p.id), buf, c) == Success(|p.data|)
    ensures Shaped(p)
  {
    assert forall i :: 0 <= i < |p.data| ==> p.data[i] == buf[c + i];
    if ShapeOf(p.id).VarIntData? {
      assert p.data[0..] == p.data && buf[c..][..|p.data|] == p.data;
      VarInt.ReadPrefix(buf[c..]);
    }
  }

  /** What is read is what lies there: the properties' bytes are exactly the bytes of the block. */
  lemma {:induction false} EachIsThere(buf: seq<byte>, c: nat, end: nat, sofar: seq<Property>)
    requires c <= end <= |buf|
    ensures var r := ParseEach(buf, c, end, sofar);
            r.Success? ==> sofar <= r.value.0 && buf[c..end] == PropertyBytes(r.value.0[|sofar|..])
    decreases end - c
  {
    hide DataLength, Shaped, ShapeOf;
    var r := ParseEach(buf, c, end, sofar);
    if r.Success? && c < end {
      var next := c + 1 + DataLength(ShapeOf(buf[c]), buf, c + 1).value;
      var p := Property(buf[c], buf[c + 1..next]);
      EachIsThere(buf, next, end, sofar + [p]);
      var ps := r.value.0[|sofar|..];
      assert ps[0] == r.value.0[|sofar|] == (sofar + [p])[|sofar|];
      assert ps[1..] == r.value.0[|sofar + [p]|..];
      assert buf[c..end] == [p.id] + p.data + buf[next..end];
    }
  }

  /** More than eight properties are refused, however many there are. */
  lemma {:induction false} EachIsCounted(ps: seq<Property>, buf: seq<byte>, c: nat, end: nat, sofar: seq<Property>)
    requires |sofar| <= 8 < |sofar| + |ps| && forall p :: p in ps ==> Shaped(p)
    requires At(buf, c, PropertyBytes(ps)) && end == c + |PropertyBytes(ps)|
    ensures ParseEach(buf, c, end, sofar) == Failure(TooManyProperties)
    decreases |ps|
  {
    hide DataLength, Shaped, At, ShapeOf;
    var p := ps[0];
    AtSplit(buf, c, [p.id] + p.data, PropertyBytes(ps[1..]));
    ParseOne(p, buf, c, end);
    if |sofar| < 8 {
      EachIsCounted(ps[1..], buf, c + 1 + |p.data|, end, sofar + [p]);
    }
  }

  /** Any written block with data of the right shape is read back if and only if it has at most eight properties. */
  lemma BlockIsReadIff(ps: seq<Property>, buf: seq<byte>, c: nat)
    requires (forall p :: p in ps ==> Shaped(p)) && |PropertyBytes(ps)| <= VarInt.MAX_VARINT && At(buf, c, Block(ps))
    ensures ParseProperties(buf, c)
         == if |ps| <= 8 then Success((ps, c + |Block(ps)|)) else Failure(TooManyProperties)
  {
    hide DataLength, Shaped, ParseVarInt, ParseEach;
    if |ps| <= 8 {
      ParseInvertsBlock(ps, buf, c);
    } else {
      var body := PropertyBytes(ps);
      AtSplit(buf, c, VarInt.Encoding(|body|), body);
      ParseInvertsVarInt(buf, c, |body|);
      var start := c + |VarInt.Encoding(|body|)|;
      EachIsCounted(ps, buf, start, start + |body|, []);
    }
  }

  /** A block is accepted only if its bytes are those of a well-formed list, behind their length. */
  lemma AcceptedBlockIsThere(buf: seq<byte>, c: nat)
    requires c <= |buf| && ParseProperties(buf, c).Success?
    ensures var (ps, end) := ParseProperties(buf, c).value;
            && WellFormed(ps) && ParseVarInt(buf, c).Success?
            && var (len, start) := ParseVarInt(buf, c).value;
               start + len == end <= |buf| && buf[start..end] == PropertyBytes(ps)
  {
    PropertiesAreWellFormed(buf, c);
    hide DataLength, Shaped, ParseVarInt, ParseEach;
    var (len, start) := ParseVarInt(buf, c).value;
    EachIsThere(buf, start, start + len, []);
  }

  lemma PropertiesAreWellFormed(buf: seq<byte>, c: nat)
    requires c <= |buf|
    ensures ParseProperties(buf, c).Success? ==> WellFormed(ParseProperties(buf, c).value.0)
  {
    hide DataLength, Shaped, ParseEach;
    if ParseProperties(buf, c).Success? {
      var (len, start) := ParseVarInt(buf, c).value;
      EachIsShaped(buf, start, start + len, []);
    }
  }

  method ReadProperties(cursor: nat, buf: seq<byte>) returns (r: Parsed<seq<Property>>)
    requires cursor <= |buf|
    ensures r == ParseProperties(buf, cursor)
  {
    hide ParseEach, VarInt.Read;
    var prefix :- VarInt.ReadVariableByteInteger(cursor, buf);
    var (propLen, c) := prefix;
    var propEnd := c + propLen;
    if propEnd > |buf| {
      return Failure(IncompletePacket);
    }
    r := ReadEach(c, propEnd, buf);
  }

  /** The loop of `read_properties`. */
  method ReadEach(start: nat, propEnd: nat, buf: seq<byte>) returns (r: Parsed<seq<Property>>)
    requires start <= propEnd <= |buf|
    ensures r == ParseEach(buf, start, propEnd, [])
  {
    hide *;
    var properties: seq<Property>, c := [], start;
    while c < propEnd
      invariant c <= propEnd && |properties| <= MAX_PROPERTIES
      invariant ParseEach(buf, start, propEnd, []) == ParseEach(buf, c, propEnd, properties)
    {
      EachStep(buf, c, propEnd, properties);
      var id, dataStart := buf[c], c + 1;
      var dataLen := PropertyDataLength(id, dataStart, buf);
      if dataLen.Failure? {
        return Failure(dataLen.error);
      }
      var next := dataStart + dataLen.value;
      if next > propEnd {
        return Failure(MalformedPacket);
      }
      if |properties| == MAX_PROPERTIES {
        return Failure(TooManyProperties);
      }
      properties := properties + [Property(id, buf[dataStart..next])];
      c := next;
    }
    EachEnds(buf, c, properties);
    return Success((properties, c));
  }

  lemma EachEnds(buf: seq<byte>, c: nat, sofar: seq<Property>)
    requires c <= |buf|
    ensures ParseEach(buf, c, c, sofar) == Success((sofar, c))
  {
  }

  lemma EachStep(buf: seq<byte>, c: nat, end: nat, sofar: seq<Property>)
    requires c < end <= |buf|
    ensures ParseEach(buf, c, end, sofar)
         == match DataLength(ShapeOf(buf[c]), buf, c + 1)
            case Failure(e) => Failure(e)
            case Success(n) =>
              if c + 1 + n > end then Failure(MalformedPacket)
              else if |sofar| >= MAX_PROPERTIES then Failure(TooManyProperties)
              else ParseEach(buf, c + 1 + n, end, sofar + [Property(buf[c], buf[c + 1..c + 1 + n])])
  {
    hide DataLength, ShapeOf;
  }

  /** The `match id` of the source. */
  method PropertyDataLength(id: byte, dataStart: nat, buf: seq<byte>) returns (r: Result<nat, PacketError>)
    requires dataStart <= |buf|
    ensures r == DataLength(ShapeOf(id), buf, dataStart)
  {
    match id {
      case 0x01 | 0x17 | 0x24 | 0x25 | 0x28 | 0x29 | 0x2A =>
        return Success(1);
      case 0x13 | 0x21 | 0x22 =>
        return Success(2);
      case 0x02 | 0x11 | 0x18 | 0x23 | 0x27 =>
        return Success(4);
      case 0x03 | 0x08 | 0x12 | 0x15 | 0x1A | 0x1C | 0x1F | 0x09 | 0x16 =>
        if dataStart + 1 >= |buf| {
          return Failure(MalformedPacket);
        }
        return Success(2 + FromBigEndian16(buf[dataStart], buf[dataStart + 1]));
      case 0x26 =>
        if dataStart + 1 >= |buf| {
          return Failure(MalformedPacket);
        }
        var keyLen: nat := FromBigEndian16(buf[dataStart], buf[dataStart + 1]);
        var valStart := dataStart + 2 + keyLen;
        if valStart + 1 >= |buf| {
          return Failure(MalformedPacket);
        }
        var valLen: nat := FromBigEndian16(buf[valStart], buf[valStart + 1]);
        return Success(2 + keyLen + 2 + valLen);
      case 0x0B =>
        var temp :- VarInt.ReadVariableByteInteger(dataStart, buf);
        return Success(temp.1 - dataStart);
      case _ =>
        return Success(1);
    }
  }

  lemma PropertyBytesSplit(ps: seq<Property>, i: nat)
    requires i < |ps|
    ensures PropertyBytes(ps[i..]) == [ps[i].id] + ps[i].data + PropertyBytes(ps[i + 1..])
  {
    assert ps[i..][1..] == ps[i + 1..];
  }

  method WriteProperties(buf: array<byte>, cursor: nat, properties: seq<Property>) returns (r: Result<nat, PacketError>)
    modifies buf
    ensures r == if cursor + |Block(properties)| <= buf.Length then Success(cursor + |Block(properties)|)
                 else Failure(BufferTooSmall)
    ensures r.Success? ==> buf[cursor..r.value] == Block(properties)
    ensures forall i :: 0 <= i < buf.Length && !(cursor <= i < cursor + |Block(properties)|) ==> buf[i] == old(buf[i])
  {
    var total := PropertyLength(properties);
    var c :- VarInt.WriteVariableByteInteger(buf, cursor, total);
    var end :- WriteEach(buf, c, properties);
    assert buf[cursor..end] == buf[cursor..c] + buf[c..end];
    return Success(end);
  }

  /** The first loop of `write_properties`: the length of the block's contents. */
  method PropertyLength(properties: seq<Property>) returns (total: nat)
    ensures total == |PropertyBytes(properties)|
  {
    total := 0;
    assert properties[0..] == properties;
    for i := 0 to |properties|
      invariant total + |PropertyBytes(properties[i..])| == |PropertyBytes(properties)|
    {
      PropertyBytesSplit(properties, i);
      total := total + 1 + |properties[i].data|;
    }
  }

  /** The second loop of `write_properties`: identifiers and data one after another. */
  method WriteEach(buf: array<byte>, cursor: nat, properties: seq<Property>) returns (r: Result<nat, PacketError>)
    requires cursor <= buf.Length
    modifies buf
    ensures r == if cursor + |PropertyBytes(properties)| <= buf.Length
                 then Success(cursor + |PropertyBytes(properties)|)
                 else Failure(BufferTooSmall)
    ensures r.Success? ==> buf[cursor..r.value] == PropertyBytes(properties)
    ensures forall i :: 0 <= i < buf.Length && !(cursor <= i < cursor + |PropertyBytes(properties)|)
                        ==> buf[i] == old(buf[i])
  {
    hide PropertyBytes;
    var c := cursor;
    assert properties[0..] == properties;
    ghost var done: seq<byte> := [];
    for i := 0 to |properties|
      invariant c == cursor + |done| && c <= buf.Length && buf[cursor..c] == done
      invariant done + PropertyBytes(properties[i..]) == PropertyBytes(properties)
      invariant forall k :: 0 <= k < buf.Length && !(cursor <= k < c) ==> buf[k] == old(buf[k])
    {
      PropertyBytesSplit(properties, i);
      ghost var p, later := [properties[i].id] + properties[i].data, PropertyBytes(properties[i + 1..]);
      Associative(done, p, later);
      c :- PutProperty(buf, c, properties[i]);
      Joins(buf[..], cursor, cursor + |done|, c);
      done := done + p;
    }
    NoPropertyBytes(properties);
    return Success(c);
  }

  lemma NoPropertyBytes(ps: seq<Property>)
    ensures PropertyBytes(ps[|ps|..]) == []
  {
  }

  method PutProperty(buf: array<byte>, cursor: nat, p: Property) returns (r: Result<nat, PacketError>)
    requires cursor <= buf.Length
    modifies buf
    ensures r == if cursor + 1 + |p.data| <= buf.Length then Success(cursor + 1 + |p.data|) else Failure(BufferTooSmall)
    ensures r.Success? ==> buf[cursor..r.value] == [p.id] + p.data
    ensures forall i :: 0 <= i < buf.Length && !(cursor <= i < cursor + 1 + |p.data|) ==> buf[i] == old(buf[i])
  {
    var c :- PutByte(buf, cursor, p.id);
    r := PutBytes(buf, c, p.data);
    if r.Success? {
      assert buf[cursor..r.value] == [buf[cursor]] + buf[c..r.value];
    }
  }
}
