/**
 Which byte strings the UTF-8 check accepts: exactly those that spell Unicode scalar values, each in the shortest form
 (RFC 3629, section 3).
 */
module Utf8 {
  import opened Bytes

  /** Every code point but the surrogates. */
  predicate Scalar(c: nat) {
    c <= 0x10FFFF && !(0xD800 <= c <= 0xDFFF)
  }

  function Bits2(a: nat, b: nat): nat {
    0x40 * a + b
  }

  function Bits3(a: nat, b: nat, c: nat): nat {
    0x1000 * a + 0x40 * b + c
  }

  function Bits4(a: nat, b: nat, c: nat, d: nat): nat {
    0x4_0000 * a + 0x1000 * b + 0x40 * c + d
  }

  /** The bytes `s` carry the bits of `c`, six in each byte behind the first, and no shorter form could. */
  predicate Carries(s: seq<byte>, c: nat) {
    && (forall i :: 1 <= i < |s| ==> 0x80 <= s[i] <= 0xBF)
    && match |s|
       case 1 => c < 0x80 && c == s[0]
       case 2 => 0x80 <= c < 0x800 && 0xC0 <= s[0] < 0xE0 && c == Bits2(s[0] - 0xC0, s[1] - 0x80)
       case 3 => 0x800 <= c < 0x1_0000 && 0xE0 <= s[0] < 0xF0 && c == Bits3(s[0] - 0xE0, s[1] - 0x80, s[2] - 0x80)
       case 4 =>
         0x1_0000 <= c && 0xF0 <= s[0] < 0xF8 && c == Bits4(s[0] - 0xF0, s[1] - 0x80, s[2] - 0x80, s[3] - 0x80)
       case _ => false
  }

  /** `s` is the text of these characters. */
  ghost predicate IsTextOf(s: seq<byte>, chars: seq<nat>)
    decreases |chars|
  {
    if chars == [] then s == []
    else exists n: nat :: StartsWith(s, n, chars[0]) && IsTextOf(s[n..], chars[1..])
  }

  /** The first `n` bytes are the character `c`. */
  predicate StartsWith(s: seq<byte>, n: nat, c: nat) {
    n <= |s| && IsCharacter(s[..n], c)
  }

  predicate IsCharacter(s: seq<byte>, c: nat) {
    Scalar(c) && Carries(s, c)
  }

  /** The bits of a first character that is there. */
  function CodePoint(s: seq<byte>): (c: nat)
    requires CharLength(s) > 0
    ensures IsCharacter(s[..CharLength(s)], c)
  {
    var k: nat := CharLength(s);
    if k == 1 then s[0]
    else if k == 2 then Bits2(s[0] - 0xC0, s[1] - 0x80)
    else if k == 3 then Bits3(s[0] - 0xE0, s[1] - 0x80, s[2] - 0x80)
    else Bits4(s[0] - 0xF0, s[1] - 0x80, s[2] - 0x80, s[3] - 0x80)
  }

  /** Only the length of the character itself counts. */
  lemma CharacterIsFirst(s: seq<byte>, n: nat, c: nat)
    requires n <= |s| && IsCharacter(s[..n], c)
    ensures CharLength(s) == n > 0
  {
    var t := s[..n];
    assert forall i :: 0 <= i < n ==> t[i] == s[i];
    assert forall i :: 1 <= i < n ==> 0x80 <= s[i] <= 0xBF;
  }

  lemma {:induction false} TextIsValid(s: seq<byte>, chars: seq<nat>)
    requires IsTextOf(s, chars)
    ensures ValidUtf8(s)
    decreases |chars|
  {
    if chars != [] {
      var n: nat :| StartsWith(s, n, chars[0]) && IsTextOf(s[n..], chars[1..]);
      hide IsTextOf;
      CharacterIsFirst(s, n, chars[0]);
      TextIsValid(s[n..], chars[1..]);
    }
  }

  lemma {:induction false} ValidIsText(s: seq<byte>) returns (chars: seq<nat>)
    requires ValidUtf8(s)
    ensures IsTextOf(s, chars)
    decreases |s|
  {
    if s == [] {
      return [];
    }
    var n := CharLength(s);
    var later := ValidIsText(s[n..]);
    chars := [CodePoint(s)] + later;
    TextGoesOn(s, n, CodePoint(s), later);
  }

  lemma TextGoesOn(s: seq<byte>, n: nat, c: nat, later: seq<nat>)
    requires n <= |s| && IsCharacter(s[..n], c) && IsTextOf(s[n..], later)
    ensures IsTextOf(s, [c] + later)
  {
    hide IsCharacter;
    var chars := [c] + later;
    assert chars[0] == c && chars[1..] == later;
    assert StartsWith(s, n, chars[0]) && IsTextOf(s[n..], chars[1..]);
  }

  /** The check accepts a byte string exactly when it is the text of some sequence of Unicode scalar values. */
  lemma ValidIff(s: seq<byte>)
    ensures ValidUtf8(s) <==> exists chars :: IsTextOf(s, chars)
  {
    if ValidUtf8(s) {
      var chars := ValidIsText(s);
    }
    if exists chars :: IsTextOf(s, chars) {
      var chars :| IsTextOf(s, chars);
      TextIsValid(s, chars);
    }
  }

  /** Every scalar value has a form, so the check refuses no character. */
  lemma EveryScalarHasAForm(c: nat) returns (s: seq<byte>)
    requires Scalar(c)
    ensures IsCharacter(s, c) && ValidUtf8(s)
  {
    if c < 0x80 {
      s := [c];
    } else {
      var high, low := c / 0x40, c % 0x40;
      if c < 0x800 {
        s := [0xC0 + high, 0x80 + low];
      } else if c < 0x1_0000 {
        s := Form3(c, high, low);
      } else {
        s := Form4(c, high, low);
      }
    }
    CharacterIsText(s, c);
    TextIsValid(s, [c]);
  }

  lemma Form3(c: nat, high: nat, low: nat) returns (s: seq<byte>)
    requires Scalar(c) && 0x800 <= c < 0x1_0000 && c == 0x40 * high + low && low < 0x40
    ensures IsCharacter(s, c)
  {
    var top, middle := high / 0x40, high % 0x40;
    assert c == Bits3(top, middle, low);
    s := [0xE0 + top, 0x80 + middle, 0x80 + low];
  }

  lemma Form4(c: nat, high: nat, low: nat) returns (s: seq<byte>)
    requires Scalar(c) && 0x1_0000 <= c && c == 0x40 * high + low && low < 0x40
    ensures IsCharacter(s, c)
  {
    var upper, third := high / 0x40, high % 0x40;
    var top, second := upper / 0x40, upper % 0x40;
    assert c == Bits4(top, second, third, low);
    s := [0xF0 + top, 0x80 + second, 0x80 + third, 0x80 + low];
  }

  lemma CharacterIsText(s: seq<byte>, c: nat)
    requires IsCharacter(s, c)
    ensures IsTextOf(s, [c])
  {
    assert s[..|s|] == s;
    TextGoesOn(s, |s|, c, []);
    assert [c] + [] == [c];
  }
}
