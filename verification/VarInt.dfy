/** Variable byte integers (crates/mqtt-packet/src/varint.rs; section 1.5.5 of MQTT 5.0). */
module VarInt {
  import opened Wrappers
  import opened Bytes
  import opened PacketErrors

  const MAX_VARINT: nat := 268_435_455

  /** The bytes both writers emit. The writers do not bound the value, so neither does this. */
  function Encoding(n: nat): (s: seq<byte>)
    ensures |s| >= 1
  {
    if n < 128 then [n] else [n % 128 + 128] + Encoding(n / 128)
  }

  /** Reads at most `room` bytes: the value and the number of bytes it took. */
  function ReadWithin(s: seq<byte>, room: nat): (r: Result<(nat, nat), PacketError>)
    requires room > 0
    ensures r.Success? ==> 1 <= r.value.1 <= room && r.value.1 <= |s|
    decreases room
  {
    if s == [] then Failure(IncompletePacket)
    else if s[0] < 128 then Success((s[0], 1))
    else if room == 1 then Failure(MalformedPacket)
    else
      var (high, n) :- ReadWithin(s[1..], room - 1);
      Success((s[0] - 128 + 128 * high, n + 1))
  }

  /** What both readers compute at the start of `s`. */
  function Read(s: seq<byte>): (r: Result<(nat, nat), PacketError>) {
    ReadWithin(s, 4)
  }

  /** 128 to the power `k`. */
  function Pow128(k: nat): (p: nat)
    ensures p > 0
  {
    if k == 0 then 1 else 128 * Pow128(k - 1)
  }

  /** Reading inverts writing, and fails exactly on values that need more bytes than the reader allows. */
  lemma {:induction false} ReadInvertsWithin(n: nat, room: nat, rest: seq<byte>)
    requires room > 0
    ensures ReadWithin(Encoding(n) + rest, room)
         == if n < Pow128(room) then Success((n, |Encoding(n)|)) else Failure(MalformedPacket)
    decreases room
  {
    var s := Encoding(n) + rest;
    if n < 128 {
      assert Pow128(room) >= 128 * Pow128(room - 1);
    } else if room == 1 {
      assert Pow128(1) == 128 * Pow128(0);
    } else {
      assert s[1..] == Encoding(n / 128) + rest;
      ReadInvertsWithin(n / 128, room - 1, rest);
      assert Pow128(room) == 128 * Pow128(room - 1);
    }
  }

  lemma ReadInvertsEncoding(n: nat, rest: seq<byte>)
    ensures Read(Encoding(n) + rest)
         == if n <= MAX_VARINT then Success((n, |Encoding(n)|)) else Failure(MalformedPacket)
  {
    ReadInvertsWithin(n, 4, rest);
    PowFour();
  }

  lemma PowFour()
    ensures Pow128(4) == MAX_VARINT + 1 && Pow128(3) == 2_097_152 && Pow128(2) == 16_384
  {
    assert Pow128(1) == 128;
    assert Pow128(2) == 128 * Pow128(1);
    assert Pow128(3) == 128 * Pow128(2);
    assert Pow128(4) == 128 * Pow128(3);
  }

  /** The writer's length: one more byte at each of 128, 16,384 and 2,097,152. */
  lemma EncodingLength(n: nat)
    ensures |Encoding(n)| == 1 <==> n < 128
    ensures |Encoding(n)| <= 2 <==> n < 16_384
    ensures |Encoding(n)| <= 3 <==> n < 2_097_152
    ensures |Encoding(n)| <= 4 <==> n <= MAX_VARINT
  {
    if n >= 128 {
      var a := n / 128;
      assert |Encoding(n)| == 1 + |Encoding(a)|;
      if a >= 128 {
        var b := a / 128;
        assert |Encoding(a)| == 1 + |Encoding(b)|;
        if b >= 128 {
          var c := b / 128;
          assert |Encoding(b)| == 1 + |Encoding(c)|;
          assert c >= 128 ==> |Encoding(c)| == 1 + |Encoding(c / 128)|;
        }
      }
    }
  }

  lemma {:induction false} EncodingIsShort(n: nat)
    ensures |Encoding(n)| <= 4 + n
    decreases n
  {
    if n >= 128 {
      EncodingIsShort(n / 128);
    }
  }

  /** Every accepted encoding is in range and no shorter than the writer's. */
  lemma {:induction false} AcceptedWithin(s: seq<byte>, room: nat)
    requires room > 0 && ReadWithin(s, room).Success?
    ensures ReadWithin(s, room).value.0 < Pow128(ReadWithin(s, room).value.1) <= Pow128(room)
    ensures |Encoding(ReadWithin(s, room).value.0)| <= ReadWithin(s, room).value.1
    decreases room
  {
    if s[0] < 128 {
      PowMonotone(1, room);
      assert Pow128(1) == 128 * Pow128(0);
    } else {
      AcceptedWithin(s[1..], room - 1);
      var (high, n) := ReadWithin(s[1..], room - 1).value;
      var v := s[0] - 128 + 128 * high;
      assert v / 128 == high;
      PowMonotone(n + 1, room);
    }
  }

  lemma {:induction false} PowMonotone(a: nat, b: nat)
    requires a <= b
    ensures Pow128(a) <= Pow128(b)
    decreases b
  {
    if a < b {
      PowMonotone(a, b - 1);
    }
  }

  lemma AcceptedIsBounded(s: seq<byte>)
    requires Read(s).Success?
    ensures Read(s).value.0 <= MAX_VARINT
    ensures |Encoding(Read(s).value.0)| <= Read(s).value.1 <= 4
  {
    AcceptedWithin(s, 4);
    PowFour();
  }

  /** `field` spells `n`: seven bits a byte, the lowest first, with the high bit set on every byte but the last. */
  predicate Spells(field: seq<byte>, n: nat) {
    || (|field| == 1 && field[0] < 128 && n == field[0])
    || (|field| == 2 && field[0] >= 128 > field[1] && n == Digits(field[0] - 128, field[1], 0, 0))
    || (|field| == 3 && field[0] >= 128 && field[1] >= 128 > field[2]
        && n == Digits(field[0] - 128, field[1] - 128, field[2], 0))
    || (|field| == 4 && field[0] >= 128 && field[1] >= 128 && field[2] >= 128 > field[3]
        && n == Digits(field[0] - 128, field[1] - 128, field[2] - 128, field[3]))
  }

  function Digits(a: nat, b: nat, c: nat, d: nat): nat {
    a + 0x80 * b + 0x4000 * c + 0x20_0000 * d
  }

  /**
   The reader accepts exactly the fields of one to four bytes that spell a number. Four bytes that all announce another
   one are malformed, and fewer than four of them are incomplete.
   */
  lemma ReadIff(s: seq<byte>, n: nat, k: nat)
    ensures Read(s) == Success((n, k)) <==> k <= |s| && Spells(s[..k], n)
    ensures Read(s) == Failure(MalformedPacket) <==> |s| >= 4 && Continues(s[..4])
    ensures Read(s) == Failure(IncompletePacket) <==> |s| < 4 && Continues(s)
  {
    if s != [] && s[0] >= 128 && |s| > 1 && s[1] >= 128 && |s| > 2 && s[2] >= 128 && |s| > 3 {
      assert s[1..][1..][1..][0] == s[3];
    }
  }

  predicate Continues(s: seq<byte>) {
    forall i :: 0 <= i < |s| ==> s[i] >= 128
  }

  /** More input never changes a finished read; only a truncated field can still turn into something else. */
  lemma {:induction false} ReadStableWithin(s: seq<byte>, more: seq<byte>, room: nat)
    requires room > 0
    ensures ReadWithin(s, room) != Failure(IncompletePacket) ==> ReadWithin(s + more, room) == ReadWithin(s, room)
    decreases room
  {
    if s != [] && s[0] >= 128 && room > 1 {
      ReadStableWithin(s[1..], more, room - 1);
      assert (s + more)[1..] == s[1..] + more;
    }
  }

  lemma ReadStable(s: seq<byte>, more: seq<byte>)
    ensures Read(s) != Failure(IncompletePacket) ==> Read(s + more) == Read(s)
  {
    ReadStableWithin(s, more, 4);
  }

  /** A read depends on the bytes it takes only. */
  lemma {:induction false} ReadPrefixWithin(s: seq<byte>, room: nat)
    requires room > 0 && ReadWithin(s, room).Success?
    ensures ReadWithin(s[..ReadWithin(s, room).value.1], room) == ReadWithin(s, room)
    decreases room
  {
    if s[0] >= 128 {
      ReadPrefixWithin(s[1..], room - 1);
      var n := ReadWithin(s[1..], room - 1).value.1;
      assert s[..n + 1][1..] == s[1..][..n];
    }
  }

  lemma ReadPrefix(s: seq<byte>)
    requires Read(s).Success?
    ensures Read(s[..Read(s).value.1]) == Read(s)
  {
    ReadPrefixWithin(s, 4);
  }

  /** A suffix read folded into the value accumulated so far by a reader's loop. */
  ghost function Accumulated(value: nat, multiplier: nat, i: nat, r: Result<(nat, nat), PacketError>)
    : Result<(nat, nat), PacketError>
  {
    match r
    case Success((v, n)) => Success((value + multiplier * v, i + n))
    case Failure(e) => Failure(e)
  }

  lemma Distribute(multiplier: nat, low: nat, high: nat)
    ensures multiplier * (low + 128 * high) == low * multiplier + (multiplier * 128) * high
  {
  }

  /** One turn of the readers' loop, on the value read so far. */
  lemma AccumulateTurn(value: nat, multiplier: nat, i: nat, s: seq<byte>)
    requires i < 4
    ensures var r := Accumulated(value, multiplier, i, ReadWithin(s, 4 - i));
            if s == [] then r == Failure(IncompletePacket)
            else var sum := value + (s[0] % 128) * multiplier;
                 if s[0] < 128 then r == Success((sum, i + 1))
                 else if i == 3 then r == Failure(MalformedPacket)
                 else r == Accumulated(sum, multiplier * 128, i + 1, ReadWithin(s[1..], 3 - i))
  {
    if s != [] && s[0] >= 128 && i < 3 {
      match ReadWithin(s[1..], 3 - i)
      case Failure(_) =>
      case Success((v, n)) =>
        Distribute(multiplier, s[0] - 128, v);
    }
  }

  method PeekVariableByteInteger(buf: seq<byte>) returns (r: Result<(nat, nat), PacketError>)
    ensures r == Read(buf)
  {
    var multiplier: nat, value: nat, i: nat := 1, 0, 0;
    while true
      invariant 0 <= i < 4 && i <= |buf|
      invariant Read(buf) == Accumulated(value, multiplier, i, ReadWithin(buf[i..], 4 - i))
      decreases 4 - i
    {
      AccumulateTurn(value, multiplier, i, buf[i..]);
      if i >= |buf| {
        return Failure(IncompletePacket);
      }
      var encodedByte := buf[i];
      assert buf[i..][1..] == buf[i + 1..];
      value := value + (encodedByte % 128) * multiplier;
      if encodedByte < 128 {
        break;
      }
      multiplier := multiplier * 128;
      i := i + 1;
      if i >= 4 {
        return Failure(MalformedPacket);
      }
    }
    return Success((value, i + 1));
  }

  /** Returns the value and the advanced cursor. */
  method ReadVariableByteInteger(cursor: nat, buf: seq<byte>) returns (r: Result<(nat, nat), PacketError>)
    requires cursor <= |buf|
    ensures r == match Read(buf[cursor..])
                 case Success((v, n)) => Success((v, cursor + n))
                 case Failure(e) => Failure(e)
  {
    var multiplier: nat, value: nat, i: nat := 1, 0, 0;
    while true
      invariant 0 <= i < 4 && cursor + i <= |buf|
      invariant Read(buf[cursor..]) == Accumulated(value, multiplier, i, ReadWithin(buf[cursor + i..], 4 - i))
      decreases 4 - i
    {
      AccumulateTurn(value, multiplier, i, buf[cursor + i..]);
      if cursor + i >= |buf| {
        return Failure(IncompletePacket);
      }
      var encodedByte := buf[cursor + i];
      assert buf[cursor + i..][1..] == buf[cursor + (i + 1)..];
      value := value + (encodedByte % 128) * multiplier;
      if encodedByte < 128 {
        break;
      }
      multiplier := multiplier * 128;
      i := i + 1;
      if i >= 4 {
        return Failure(MalformedPacket);
      }
    }
    return Success((value, cursor + i + 1));
  }

  /** Writes at `cursor`; the result is the advanced cursor. */
  method WriteVariableByteInteger(buf: array<byte>, cursor: nat, val: nat) returns (r: Result<nat, PacketError>)
    modifies buf
    ensures r == if cursor + |Encoding(val)| <= buf.Length then Success(cursor + |Encoding(val)|)
                 else Failure(BufferTooSmall)
    ensures r.Success? ==> buf[cursor..r.value] == Encoding(val)
    ensures forall i :: 0 <= i < buf.Length && !(cursor <= i < cursor + |Encoding(val)|) ==> buf[i] == old(buf[i])
  {
    var c, v := cursor, val;
    ghost var written: seq<byte> := [];
    while true
      invariant c == cursor + |written|
      invariant Encoding(val) == written + Encoding(v)
      invariant if c <= buf.Length then buf[cursor..c] == written else written == []
      invariant forall i :: 0 <= i < buf.Length && !(cursor <= i < c) ==> buf[i] == old(buf[i])
      decreases v
    {
      EncodingTurn(v);
      ghost var before := v;
      var encodedByte: byte := v % 128;
      v := v / 128;
      if v > 0 {
        encodedByte := encodedByte + 128;
      }
      hide Encoding;
      if c >= buf.Length {
        return Failure(BufferTooSmall);
      }
      buf[c] := encodedByte;
      c := c + 1;
      Associative(written, [encodedByte], if v > 0 then Encoding(v) else []);
      written := written + [encodedByte];
      assert buf[cursor..c] == written;
      if v == 0 {
        assert written + [] == written;
        break;
      }
    }
    return Success(c);
  }

  /** One turn of the writers' loops. */
  lemma EncodingTurn(v: nat)
    ensures Encoding(v) == (if v / 128 > 0 then [v % 128 + 128] + Encoding(v / 128) else [v % 128] + [])
    ensures |Encoding(v)| >= 1
  {
  }

  /** Writes at the start of the slice `buf[lo..]`; the result is the number of bytes written. */
  method WriteVariableByteIntegerLen(buf: array<byte>, lo: nat, val: nat) returns (r: Result<nat, PacketError>)
    requires lo <= buf.Length
    modifies buf
    ensures r == if |Encoding(val)| <= buf.Length - lo then Success(|Encoding(val)|) else Failure(BufferTooSmall)
    ensures r.Success? ==> buf[lo..lo + r.value] == Encoding(val)
    ensures forall i :: 0 <= i < buf.Length && !(lo <= i < lo + |Encoding(val)|) ==> buf[i] == old(buf[i])
  {
    var i, v := 0, val;
    while true
      invariant 0 <= i <= buf.Length - lo
      invariant Encoding(val) == buf[lo..lo + i] + Encoding(v)
      invariant forall k :: 0 <= k < buf.Length && !(lo <= k < lo + i) ==> buf[k] == old(buf[k])
      decreases v
    {
      EncodingTurn(v);
      var encodedByte: byte := v % 128;
      ghost var sofar := buf[lo..lo + i];
      v := v / 128;
      if v > 0 {
        encodedByte := encodedByte + 128;
      }
      hide Encoding;
      Associative(sofar, [encodedByte], if v > 0 then Encoding(v) else []);
      if i >= buf.Length - lo {
        return Failure(BufferTooSmall);
      }
      buf[lo + i] := encodedByte;
      i := i + 1;
      assert buf[lo..lo + i] == sofar + [encodedByte];
      if v == 0 {
        assert sofar + [encodedByte] + [] == sofar + [encodedByte];
        break;
      }
    }
    return Success(i);
  }
}
