/** Lower-case hexadecimal, as produced by `secrets.token_hex`,
    `hexdigest()` and `sprintf("%02x")`. */
module Hex {
  import Base64

  type byte = Base64.byte
  type nibble = x: int | 0 <= x < 16

  /** A character of the alphabet "0123456789abcdef". */
  predicate IsHexChar(c: char)
  {
    '0' <= c <= '9' || 'a' <= c <= 'f'
  }

  predicate IsHex(s: string)
  {
    forall i :: 0 <= i < |s| ==> IsHexChar(s[i])
  }

  function Digit(v: nibble): (c: char)
    ensures IsHexChar(c)
  {
    if v < 10 then ('0' as int + v) as char else ('a' as int + v - 10) as char
  }

  function DigitValue(c: char): (v: nibble)
    requires IsHexChar(c)
    ensures Digit(v) == c
  {
    if '0' <= c <= '9' then c as int - '0' as int else c as int - 'a' as int + 10
  }

  lemma DigitValueOfDigit(v: nibble)
    ensures DigitValue(Digit(v)) == v
  {
  }

  /** Two digits per byte, high nibble first. */
  function Encode(b: seq<byte>): (r: string)
    ensures |r| == 2 * |b|
    ensures IsHex(r)
  {
    if b == [] then "" else [Digit(b[0] / 16), Digit(b[0] % 16)] + Encode(b[1..])
  }

  function Decode(s: string): (r: seq<byte>)
    requires |s| % 2 == 0 && IsHex(s)
    ensures 2 * |r| == |s|
  {
    if s == [] then []
    else [16 * DigitValue(s[0]) + DigitValue(s[1])] + Decode(s[2..])
  }

  lemma {:induction false} DecodeEncode(b: seq<byte>)
    ensures Decode(Encode(b)) == b
  {
    if b != [] {
      var r := Encode(b);
      assert r[2..] == Encode(b[1..]);
      DigitValueOfDigit(b[0] / 16);
      DigitValueOfDigit(b[0] % 16);
      DecodeEncode(b[1..]);
    }
  }

  lemma {:induction false} EncodeDecode(s: string)
    requires |s| % 2 == 0 && IsHex(s)
    ensures Encode(Decode(s)) == s
  {
    if s != [] {
      var d := Decode(s);
      var hi: int, lo: int := DigitValue(s[0]), DigitValue(s[1]);
      assert d[0] / 16 == hi && d[0] % 16 == lo by {
        Base64.DivModUnique(d[0], 16, hi, lo);
      }
      assert d[1..] == Decode(s[2..]);
      EncodeDecode(s[2..]);
      assert s == [s[0], s[1]] + s[2..];
    }
  }

  /** Two byte strings with the same hex rendering are equal. */
  lemma EncodeInjective(a: seq<byte>, b: seq<byte>)
    requires Encode(a) == Encode(b)
    ensures a == b
  {
    DecodeEncode(a);
    DecodeEncode(b);
  }

  /** Encoding a concatenation encodes its parts one after the other. */
  lemma {:induction false} EncodeAppend(a: seq<byte>, b: seq<byte>)
    ensures Encode(a + b) == Encode(a) + Encode(b)
  {
    if a == [] {
      assert a + b == b;
    } else {
      var x := a + b;
      assert x[0] == a[0] && x[1..] == a[1..] + b;
      EncodeAppend(a[1..], b);
      var d := [Digit(a[0] / 16), Digit(a[0] % 16)];
      var ta, tb := Encode(a[1..]), Encode(b);
      assert Encode(x) == d + (ta + tb);
      assert Encode(a) == d + ta;
      assert d + (ta + tb) == (d + ta) + tb;
    }
  }

  /** The encoding of one more byte ends with that byte's two digits. */
  lemma EncodeSnoc(b: seq<byte>, i: nat)
    requires i < |b|
    ensures Encode(b[..i + 1]) == Encode(b[..i]) + [Digit(b[i] / 16), Digit(b[i] % 16)]
  {
    assert b[..i + 1] == b[..i] + [b[i]];
    EncodeAppend(b[..i], [b[i]]);
  }
}
