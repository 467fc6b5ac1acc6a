/**
 Fields of a packet body: raw bytes, two-byte words and length-prefixed strings
 (crates/mqtt-packet/src/varint.rs).
 */
module Fields {
  import opened Wrappers
  import opened Bytes
  import opened PacketErrors
  import VarInt

  /** A field read at a cursor: its value and the cursor after it. */
  type Parsed<T> = Result<(T, nat), PacketError>

  /** The bytes `x` lie in `buf` from index `c` on. */
  ghost predicate At(buf: seq<byte>, c: nat, x: seq<byte>) {
    c + |x| <= |buf| && buf[c..c + |x|] == x
  }

  lemma AtSplit(buf: seq<byte>, c: nat, x: seq<byte>, y: seq<byte>)
    requires At(buf, c, x + y)
    ensures At(buf, c, x) && At(buf, c + |x|, y)
  {
    Halves(x, y);
    assert buf[c..c + |x|] == buf[c..c + |x + y|][..|x|];
    assert buf[c + |x|..c + |x| + |y|] == buf[c..c + |x + y|][|x|..];
  }

  function ParseVarInt(buf: seq<byte>, c: nat): (p: Parsed<nat>)
    requires c <= |buf|
    ensures p.Success? ==> c < p.value.1 <= |buf|
  {
    var (v, n) :- VarInt.Read(buf[c..]);
    Success((v, c + n))
  }

  lemma ParseInvertsVarInt(buf: seq<byte>, c: nat, n: nat)
    requires n <= VarInt.MAX_VARINT && At(buf, c, VarInt.Encoding(n))
    ensures ParseVarInt(buf, c) == Success((n, c + |VarInt.Encoding(n)|))
  {
    var s := VarInt.Encoding(n);
    assert buf[c..] == s + buf[c + |s|..];
    VarInt.ReadInvertsEncoding(n, buf[c + |s|..]);
  }

  /** A string or binary field. Only the low 16 bits of the length fit the prefix. */
  function Prefixed(s: seq<byte>): (r: seq<byte>)
    ensures |r| == 2 + |s|
  {
    BigEndian16(|s| % 0x1_0000) + s
  }

  function ParseBinary(buf: seq<byte>, c: nat): (p: Parsed<seq<byte>>)
    ensures p.Success? ==> c + 2 <= p.value.1 <= |buf|
  {
    if c + 2 > |buf| then Failure(IncompletePacket)
    else
      var len := FromBigEndian16(buf[c], buf[c + 1]);
      if c + 2 + len > |buf| then Failure(IncompletePacket)
      else Success((buf[c + 2..c + 2 + len], c + 2 + len))
  }

  function ParseString(buf: seq<byte>, c: nat): (p: Parsed<seq<byte>>)
    ensures p.Success? ==> c + 2 <= p.value.1 <= |buf|
  {
    var (text, end) :- ParseBinary(buf, c);
    if ValidUtf8(text) then Success((text, end)) else Failure(InvalidUtf8String)
  }

  lemma ParseInvertsBinary(buf: seq<byte>, c: nat, s: seq<byte>)
    requires |s| < 0x1_0000 && At(buf, c, Prefixed(s))
    ensures ParseBinary(buf, c) == Success((s, c + 2 + |s|))
  {
    AtSplit(buf, c, BigEndian16(|s|), s);
    ReadsWord(buf, c, |s|);
  }

  lemma ParseInvertsString(buf: seq<byte>, c: nat, s: seq<byte>)
    requires |s| < 0x1_0000 && ValidUtf8(s) && At(buf, c, Prefixed(s))
    ensures ParseString(buf, c) == Success((s, c + 2 + |s|))
  {
    ParseInvertsBinary(buf, c, s);
  }

  lemma ReadsWord(buf: seq<byte>, c: nat, n: u16)
    requires At(buf, c, BigEndian16(n))
    ensures FromBigEndian16(buf[c], buf[c + 1]) == n
  {
    assert buf[c] == buf[c..c + 2][0] && buf[c + 1] == buf[c..c + 2][1];
  }

  method ReadBinaryData(cursor: nat, buf: seq<byte>) returns (r: Parsed<seq<byte>>)
    ensures r == ParseBinary(buf, cursor)
  {
    if cursor + 2 > |buf| {
      return Failure(IncompletePacket);
    }
    var len := FromBigEndian16(buf[cursor], buf[cursor + 1]);
    var c := cursor + 2;
    if c + len > |buf| {
      return Failure(IncompletePacket);
    }
    return Success((buf[c..c + len], c + len));
  }

  method ReadUtf8String(cursor: nat, buf: seq<byte>) returns (r: Parsed<seq<byte>>)
    ensures r == ParseString(buf, cursor)
  {
    var data :- ReadBinaryData(cursor, buf);
    if !ValidUtf8(data.0) {
      return Failure(InvalidUtf8String);
    }
    return Success(data);
  }

  /** `*buf.get_mut(cursor).ok_or(BufferTooSmall)? = b`, with the cursor advanced. */
  method PutByte(buf: array<byte>, cursor: nat, b: byte) returns (r: Result<nat, PacketError>)
    modifies buf
    ensures r == if cursor + 1 <= buf.Length then Success(cursor + 1) else Failure(BufferTooSmall)
    ensures r.Success? ==> buf[cursor] == b
    ensures forall i :: 0 <= i < buf.Length && i != cursor ==> buf[i] == old(buf[i])
  {
    if cursor >= buf.Length {
      return Failure(BufferTooSmall);
    }
    buf[cursor] := b;
    return Success(cursor + 1);
  }

  /** `buf.get_mut(cursor..end).ok_or(BufferTooSmall)?.copy_from_slice(data)`, with the cursor advanced. */
  method PutBytes(buf: array<byte>, cursor: nat, data: seq<byte>) returns (r: Result<nat, PacketError>)
    modifies buf
    ensures r == if cursor + |data| <= buf.Length then Success(cursor + |data|) else Failure(BufferTooSmall)
    ensures r.Success? ==> buf[cursor..r.value] == data
    ensures forall i :: 0 <= i < buf.Length && !(cursor <= i < cursor + |data|) ==> buf[i] == old(buf[i])
  {
    if cursor + |data| > buf.Length {
      return Failure(BufferTooSmall);
    }
    forall i | 0 <= i < |data| {
      buf[cursor + i] := data[i];
    }
    return Success(cursor + |data|);
  }

  /** `write_utf8_string` and `write_binary_data`, which differ only in the type of the text. */
  method PutPrefixed(buf: array<byte>, cursor: nat, s: seq<byte>) returns (r: Result<nat, PacketError>)
    modifies buf
    ensures r == if cursor > buf.Length then Failure(BufferTooSmall)
                 else if |s| > 0xFFFF then Failure(PayloadTooLarge)
                 else if cursor + 2 + |s| > buf.Length then Failure(BufferTooSmall)
                 else Success(cursor + 2 + |s|)
    ensures r.Success? ==> buf[cursor..r.value] == Prefixed(s)
    ensures forall i :: 0 <= i < buf.Length && !(cursor <= i < cursor + 2 + |s|) ==> buf[i] == old(buf[i])
  {
    if cursor > buf.Length {
      return Failure(BufferTooSmall);
    }
    if |s| > 0xFFFF {
      return Failure(PayloadTooLarge);
    }
    var end := cursor + 2 + |s|;
    if end > buf.Length {
      return Failure(BufferTooSmall);
    }
    var whole := BigEndian16(|s|) + s;
    forall i | 0 <= i < |whole| {
      buf[cursor + i] := whole[i];
    }
    assert buf[cursor..end] == whole;
    return Success(end);
  }

  /** `buf.copy_within(src..end, dst)`; overlapping ranges are fine, a destination out of range panics. */
  method CopyWithin(buf: array<byte>, src: nat, end: nat, dst: nat)
    requires src <= end <= buf.Length && dst + (end - src) <= buf.Length
    modifies buf
    ensures buf[dst..dst + (end - src)] == old(buf[src..end])
    ensures forall k :: 0 <= k < buf.Length && !(dst <= k < dst + (end - src)) ==> buf[k] == old(buf[k])
  {
    forall k | dst <= k < dst + (end - src) {
      buf[k] := buf[k - dst + src];
    }
  }
}
