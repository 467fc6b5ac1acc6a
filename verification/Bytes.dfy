/**
 Bytes, big-endian words and UTF-8 validity.

 Bit operations of the source on single bytes are written as arithmetic: `b & 127` is
 `b % 128`, `b & 128 == 0` is `b < 128`, and `|=` of a clear bit is an addition.
 */
module Bytes {

  type byte = x: int | 0 <= x < 0x100
  type u16 = x: int | 0 <= x < 0x1_0000
  type u32 = x: int | 0 <= x < 0x1_0000_0000

  /** `u16::to_be_bytes`. */
  function BigEndian16(n: u16): (s: seq<byte>)
    ensures |s| == 2
  {
    [n / 256, n % 256]
  }

  /** `u16::from_be_bytes`. */
  function FromBigEndian16(hi: byte, lo: byte): u16 {
    hi * 256 + lo
  }

  /** The number two bytes stand for on the wire, the high one first. */
  function HighLow(high: nat, low: nat): nat {
    256 * high + low
  }

  function HighLow4(a: nat, b: nat, c: nat, d: nat): nat {
    0x100_0000 * a + 0x1_0000 * b + 0x100 * c + d
  }

  /** `to_be_bytes` and `from_be_bytes`. */
  lemma BigEndianIs(n: u16, hi: byte, lo: byte)
    ensures HighLow(BigEndian16(n)[0], BigEndian16(n)[1]) == n && FromBigEndian16(hi, lo) == HighLow(hi, lo)
  {
  }

  /** Bit `weight` (a power of two) of a byte. */
  predicate Bit(b: byte, weight: int)
    requires weight in {1, 2, 4, 8, 16, 32, 64, 128}
  {
    (b / weight) % 2 == 1
  }

  function Weight(b: bool, weight: nat): nat {
    if b then weight else 0
  }

  /** `core::str::from_utf8` accepts exactly these byte strings (Table 3-7 of the Unicode Standard). */
  predicate ValidUtf8(s: seq<byte>) {
    s == [] || (CharLength(s) > 0 && ValidUtf8(s[CharLength(s)..]))
  }

  /** Length of the character that starts `s`, or 0 when none does. */
  function CharLength(s: seq<byte>): (n: nat)
    ensures n <= |s|
  {
    if |s| >= 1 && s[0] < 0x80 then 1
    else if |s| >= 2 && 0xC2 <= s[0] <= 0xDF && Continuation(s[1]) then 2
    else if |s| >= 3 && ThreeByteLead(s[0], s[1]) && Continuation(s[2]) then 3
    else if |s| >= 4 && FourByteLead(s[0], s[1]) && Continuation(s[2]) && Continuation(s[3]) then 4
    else 0
  }

  predicate Continuation(b: byte) {
    0x80 <= b <= 0xBF
  }

  predicate ThreeByteLead(a: byte, b: byte) {
    || (a == 0xE0 && 0xA0 <= b <= 0xBF)
    || (0xE1 <= a <= 0xEC && Continuation(b))
    || (a == 0xED && 0x80 <= b <= 0x9F)
    || (0xEE <= a <= 0xEF && Continuation(b))
  }

  predicate FourByteLead(a: byte, b: byte) {
    || (a == 0xF0 && 0x90 <= b <= 0xBF)
    || (0xF1 <= a <= 0xF3 && Continuation(b))
    || (a == 0xF4 && 0x80 <= b <= 0x8F)
  }

  lemma Halves<T>(a: seq<T>, b: seq<T>)
    ensures (a + b)[..|a|] == a && (a + b)[|a|..] == b
  {
  }

  lemma SliceOfSlice<T>(s: seq<T>, lo: nat, n: nat)
    requires lo + n <= |s|
    ensures s[lo..][..n] == s[lo..lo + n] && s[lo..][n..] == s[lo + n..]
  {
  }

  lemma Reattached<T>(s: seq<T>, n: nat)
    requires n <= |s|
    ensures s == s[..n] + s[n..]
  {
  }

  lemma Joins<T>(s: seq<T>, a: nat, b: nat, c: nat)
    requires a <= b <= c <= |s|
    ensures s[a..c] == s[a..b] + s[b..c]
  {
  }

  lemma Associative<T>(a: seq<T>, b: seq<T>, c: seq<T>)
    ensures a + b + c == a + (b + c)
  {
  }

  lemma HeadMoves<T>(a: seq<T>, b: seq<T>)
    requires b != []
    ensures a + [b[0]] + b[1..] == a + b
  {
  }

  lemma Reassembled<T>(s: seq<T>, n: nat, a: seq<T>, b: seq<T>)
    requires n <= |s| && a + b == s[n..]
    ensures s[..n] + a + b == s
  {
    assert s[..n] + a + b == s[..n] + (a + b);
  }

  /** The parts one after another: what a FIFO link carries. */
  function Concat<T>(parts: seq<seq<T>>): seq<T> {
    if parts == [] then [] else parts[0] + Concat(parts[1..])
  }

  lemma ConcatCons<T>(head: seq<T>, later: seq<seq<T>>)
    ensures Concat([head] + later) == head + Concat(later)
  {
  }

  lemma {:induction false} ConcatAppend<T>(a: seq<seq<T>>, b: seq<seq<T>>)
    ensures Concat(a + b) == Concat(a) + Concat(b)
  {
    if a == [] {
      assert a + b == b;
    } else {
      ConcatAppend(a[1..], b);
      assert a + b == [a[0]] + (a[1..] + b);
      ConcatCons(a[0], a[1..] + b);
      Associative(a[0], Concat(a[1..]), Concat(b));
    }
  }
}
