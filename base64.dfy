/** The Base64 codec of the secure-storage helper (section 4 of RFC 4648).

    The reference definition is the one the RFC gives: the input bytes form a
    bit stream, most significant bit first; the stream is cut into 6-bit groups
    (zero bits complete the last group); each group is one character of the
    64-character alphabet; '=' pads the text to a multiple of four characters.
    Decoding reads the 6-bit groups back into a bit stream and cuts it into
    bytes, dropping the incomplete tail.

    The methods `Base64Encode` and `Base64Decode` follow the C++ loops: the
    encoder packs three bytes into an integer `n` and shifts 6-bit groups out
    of it; the decoder shifts each accepted character into an unsigned 32-bit
    `buffer` and emits a byte whenever at least 8 bits are pending. */
module Base64 {
  import Text

  type byte = x: int | 0 <= x < 256
  type sextet = x: int | 0 <= x < 64
  type bits = seq<bool>

  const Unsigned32: nat := 0x1_0000_0000

  function Pow2(n: nat): (r: nat)
    ensures r >= 1
  {
    if n == 0 then 1 else 2 * Pow2(n - 1)
  }

  // ---------------------------------------------------------------------
  // Arithmetic on bit strings

  lemma {:induction false} MulAtLeast(a: int, m: int)
    requires a >= 1 && m > 0
    ensures a * m >= m
  {
    if a > 1 {
      MulAtLeast(a - 1, m);
      assert a * m == (a - 1) * m + m;
    }
  }

  lemma DivMod(x: int, m: int)
    requires m > 0
    ensures x == (x / m) * m + x % m
  {
  }

  lemma DivModUnique(x: int, m: int, q: int, r: int)
    requires m > 0 && 0 <= r < m && x == q * m + r
    ensures x / m == q && x % m == r
  {
    var q', r' := x / m, x % m;
    assert q' * m + r' == q * m + r;
    if q' > q {
      assert (q' - q) * m == q' * m - q * m;
      MulAtLeast(q' - q, m);
    } else if q' < q {
      assert (q - q') * m == q * m - q' * m;
      MulAtLeast(q - q', m);
    }
  }

  lemma Pow2Facts()
    ensures Pow2(6) == 64 && Pow2(8) == 256 && Pow2(12) == 4096
    ensures Pow2(16) == 65536 && Pow2(18) == 262144 && Pow2(32) == Unsigned32
  {
    assert Pow2(2) == 4;
    assert Pow2(4) == 16;
    assert Pow2(6) == 64;
    assert Pow2(8) == 256;
    Pow2Add(6, 6);
    Pow2Add(8, 8);
    Pow2Add(12, 6);
    Pow2Add(16, 16);
  }

  lemma {:induction false} Pow2Add(a: nat, b: nat)
    ensures Pow2(a + b) == Pow2(a) * Pow2(b)
  {
    if b > 0 {
      Pow2Add(a, b - 1);
      assert Pow2(a + b) == 2 * Pow2(a + b - 1);
    }
  }

  /** Big-endian value of a bit string. */
  function Value(b: bits): nat
  {
    if b == [] then 0 else 2 * Value(b[..|b| - 1]) + (if b[|b| - 1] then 1 else 0)
  }

  lemma {:induction false} ValueBound(b: bits)
    ensures Value(b) < Pow2(|b|)
  {
    if b != [] {
      ValueBound(b[..|b| - 1]);
    }
  }

  /** The `n` low-order bits of `x`, most significant first. */
  function NatBits(x: nat, n: nat): (r: bits)
    ensures |r| == n
  {
    if n == 0 then [] else NatBits(x / 2, n - 1) + [x % 2 == 1]
  }

  function Zeros(n: nat): (r: bits)
    ensures |r| == n
  {
    if n == 0 then [] else Zeros(n - 1) + [false]
  }

  lemma {:induction false} ValueNatBits(x: nat, n: nat)
    ensures Value(NatBits(x, n)) == x % Pow2(n)
  {
    if n > 0 {
      var b := NatBits(x, n);
      var low := if x % 2 == 1 then 1 else 0;
      assert b == NatBits(x / 2, n - 1) + [x % 2 == 1];
      assert b[..n - 1] == NatBits(x / 2, n - 1);
      assert Value(b) == 2 * Value(NatBits(x / 2, n - 1)) + low;
      ValueNatBits(x / 2, n - 1);
      var p := Pow2(n - 1);
      assert Pow2(n) == 2 * p;
      HalveMod(x, p);
    }
  }

  /** `x % 2p` from `(x / 2) % p` and the low bit. */
  lemma HalveMod(x: nat, p: nat)
    requires p > 0
    ensures x % (2 * p) == 2 * ((x / 2) % p) + x % 2
  {
    var q, r := (x / 2) / p, (x / 2) % p;
    assert x / 2 == q * p + r;
    assert x == 2 * (x / 2) + x % 2;
    assert x == q * (2 * p) + (2 * r + x % 2);
    DivModUnique(x, 2 * p, q, 2 * r + x % 2);
  }

  lemma ValueOfNatBits(x: nat, n: nat)
    requires x < Pow2(n)
    ensures Value(NatBits(x, n)) == x
  {
    ValueNatBits(x, n);
    DivModUnique(x, Pow2(n), 0, x);
  }

  lemma {:induction false} NatBitsValue(b: bits)
    ensures NatBits(Value(b), |b|) == b
  {
    if b != [] {
      var n := |b|;
      var v := Value(b[..n - 1]);
      DivModUnique(Value(b), 2, v, if b[n - 1] then 1 else 0);
      NatBitsValue(b[..n - 1]);
      assert b == b[..n - 1] + [b[n - 1]];
    }
  }

  lemma {:induction false} ValueAppend(a: bits, b: bits)
    ensures Value(a + b) == Value(a) * Pow2(|b|) + Value(b)
    decreases |b|
  {
    if b == [] {
      assert a + b == a;
    } else {
      var b' := b[..|b| - 1];
      var low := if b[|b| - 1] then 1 else 0;
      assert (a + b)[..|a + b| - 1] == a + b';
      assert Value(a + b) == 2 * Value(a + b') + low;
      assert Value(b) == 2 * Value(b') + low;
      ValueAppend(a, b');
      var va, pb, vb := Value(a), Pow2(|b'|), Value(b');
      assert Pow2(|b|) == 2 * pb;
      assert Value(a + b) == 2 * (va * pb + vb) + low;
      Regroup(va, pb, vb, low);
    }
  }

  lemma Regroup(va: int, pb: int, vb: int, low: int)
    ensures 2 * (va * pb + vb) + low == va * (2 * pb) + (2 * vb + low)
  {
  }

  lemma {:induction false} ValueZeros(n: nat)
    ensures Value(Zeros(n)) == 0
  {
    if n > 0 {
      assert Zeros(n)[..n - 1] == Zeros(n - 1);
      ValueZeros(n - 1);
    }
  }

  /** `(x % (m * k)) % m == x % m`. */
  lemma ModOfMod(x: nat, m: nat, k: nat)
    requires m > 0 && k > 0
    ensures (x % (m * k)) % m == x % m
  {
    var r := x % (m * k);
    var q := x / (m * k);
    assert x == (q * k) * m + r;
    DivModUnique(x, m, q * k + r / m, r % m);
  }

  /** The bits `b[lo..hi]` are read off `Value(b)` by a shift and a mask. */
  lemma ValueSlice(b: bits, lo: nat, hi: nat)
    requires lo <= hi <= |b|
    ensures Value(b[lo..hi]) == (Value(b) / Pow2(|b| - hi)) % Pow2(hi - lo)
  {
    var head, mid, tail := b[..lo], b[lo..hi], b[hi..];
    assert b == (head + mid) + tail;
    assert b[..hi] == head + mid;
    ValueAppend(head + mid, tail);
    ValueAppend(head, mid);
    ValueBound(mid);
    ValueBound(tail);
    DivModUnique(Value(b), Pow2(|tail|), Value(head + mid), Value(tail));
    DivModUnique(Value(head + mid), Pow2(|mid|), Value(head), Value(mid));
  }

  // ---------------------------------------------------------------------
  // The alphabet (lines 6-9 of the C++ file, and the decode table)

  /** The alphabet character for a 6-bit group: A-Z, a-z, 0-9, '+', '/'. */
  function SextetChar(v: sextet): (c: char)
    ensures c != '='
  {
    if v < 26 then ('A' as int + v) as char
    else if v < 52 then ('a' as int + (v - 26)) as char
    else if v < 62 then ('0' as int + (v - 52)) as char
    else if v == 62 then '+'
    else '/'
  }

  /** The decode table: the group a character stands for, or -1. */
  function DecodeChar(c: char): (r: int)
    ensures -1 <= r < 64
    ensures r >= 0 ==> SextetChar(r) == c
  {
    if 'A' <= c <= 'Z' then c as int - 'A' as int
    else if 'a' <= c <= 'z' then c as int - 'a' as int + 26
    else if '0' <= c <= '9' then c as int - '0' as int + 52
    else if c == '+' then 62
    else if c == '/' then 63
    else -1
  }

  lemma DecodeSextetChar(v: sextet)
    ensures DecodeChar(SextetChar(v)) == v
  {
  }

  // ---------------------------------------------------------------------
  // Reference definition

  /** Bytes as a bit stream, 8 bits each, most significant first. */
  function BytesBits(d: seq<byte>): (r: bits)
    ensures |r| == 8 * |d|
  {
    if d == [] then [] else NatBits(d[0], 8) + BytesBits(d[1..])
  }

  /** A bit stream of whole 6-bit groups, cut into those groups. */
  function Sextets(b: bits): (r: seq<sextet>)
    requires |b| % 6 == 0
    ensures 6 * |r| == |b|
  {
    if b == [] then []
    else
      ValueBound(b[..6]);
      Pow2Facts();
      [Value(b[..6])] + Sextets(b[6..])
  }

  /** The bit stream carried by a sequence of 6-bit groups. */
  function SextetStream(v: seq<sextet>): (r: bits)
    ensures |r| == 6 * |v|
  {
    if v == [] then [] else NatBits(v[0], 6) + SextetStream(v[1..])
  }

  /** A bit stream cut into bytes; an incomplete final byte is dropped. */
  function BitsToBytes(b: bits): (r: seq<byte>)
    ensures |r| == |b| / 8
  {
    if |b| < 8 then []
    else
      ValueBound(b[..8]);
      Pow2Facts();
      [Value(b[..8])] + BitsToBytes(b[8..])
  }

  function Chars(v: seq<sextet>): (r: string)
    ensures |r| == |v|
  {
    if v == [] then [] else [SextetChar(v[0])] + Chars(v[1..])
  }

  lemma {:induction false} CharsAt(v: seq<sextet>, i: nat)
    requires i < |v|
    ensures Chars(v)[i] == SextetChar(v[i])
  {
    if i > 0 {
      CharsAt(v[1..], i - 1);
    }
  }

  /** Zero bits that complete the last 6-bit group of `n` bytes. */
  function PadBits(n: nat): nat
  {
    if n % 3 == 0 then 0 else if n % 3 == 1 then 4 else 2
  }

  /** '=' characters that complete the last 4-character quantum. */
  function Padding(n: nat): string
  {
    if n % 3 == 0 then "" else if n % 3 == 1 then "==" else "="
  }

  /** The bits of one to three bytes, completed with zero bits to whole
      6-bit groups. */
  function QuantumBits(g: seq<byte>): (r: bits)
    requires 1 <= |g| <= 3
    ensures |r| == 6 * (|g| + 1)
  {
    BytesBits(g) + Zeros(PadBits(|g|))
  }

  /** A quantum of one to three bytes: their 6-bit groups as alphabet
      characters, then '=' up to four characters. */
  function EncodeQuantum(g: seq<byte>): string
    requires 1 <= |g| <= 3
  {
    Chars(Sextets(QuantumBits(g))) + Padding(|g|)
  }

  /** The input is encoded 24-bit group by 24-bit group; only the last
      quantum can be shorter. */
  function EncodeSpec(d: seq<byte>): string
  {
    if d == [] then ""
    else if |d| <= 3 then EncodeQuantum(d)
    else EncodeQuantum(d[..3]) + EncodeSpec(d[3..])
  }

  /** The groups of the alphabet characters of `s`, in order; every other
      character is skipped. */
  function Digits(s: string): (r: seq<sextet>)
    ensures |r| <= |s|
  {
    if s == [] then []
    else
      var c := s[|s| - 1];
      Digits(s[..|s| - 1]) + (if DecodeChar(c) >= 0 then [DecodeChar(c) as sextet] else [])
  }

  /** Decoding reads up to the first '='. */
  function DecodeSpec(s: string): seq<byte>
  {
    BitsToBytes(SextetStream(Digits(Text.Before(s, '='))))
  }

  // ---------------------------------------------------------------------
  // Structure lemmas

  lemma {:induction false} SextetsAt(b: bits, j: nat)
    requires |b| % 6 == 0 && 6 * j + 6 <= |b|
    ensures Sextets(b)[j] == Value(b[6 * j..6 * j + 6])
    decreases j
  {
    if j > 0 {
      SextetsAt(b[6..], j - 1);
      var k := 6 * (j - 1);
      assert 6 * j == k + 6;
      assert b[6..][k..k + 6] == b[k + 6..k + 12];
    }
  }

  lemma {:induction false} SextetStreamAppend(v: seq<sextet>, x: sextet)
    ensures SextetStream(v + [x]) == SextetStream(v) + NatBits(x, 6)
  {
    if v != [] {
      assert (v + [x])[1..] == v[1..] + [x];
      SextetStreamAppend(v[1..], x);
    }
  }

  lemma {:induction false} SextetStreamConcat(v: seq<sextet>, w: seq<sextet>)
    ensures SextetStream(v + w) == SextetStream(v) + SextetStream(w)
  {
    if v == [] {
      assert v + w == w;
    } else {
      assert (v + w)[0] == v[0];
      assert (v + w)[1..] == v[1..] + w;
      SextetStreamConcat(v[1..], w);
    }
  }

  lemma {:induction false} StreamOfSextets(b: bits)
    requires |b| % 6 == 0
    ensures SextetStream(Sextets(b)) == b
    decreases |b|
  {
    if b != [] {
      NatBitsValue(b[..6]);
      StreamOfSextets(b[6..]);
      assert b == b[..6] + b[6..];
    }
  }

  lemma {:induction false} BitsToBytesAppend(a: bits, b: bits)
    requires |a| % 8 == 0
    ensures BitsToBytes(a + b) == BitsToBytes(a) + BitsToBytes(b)
    decreases |a|
  {
    if a == [] {
      assert a + b == b;
    } else {
      assert (a + b)[..8] == a[..8];
      assert (a + b)[8..] == a[8..] + b;
      BitsToBytesAppend(a[8..], b);
    }
  }

  /** Cutting a byte stream back into bytes gives the bytes, whatever fewer
      than 8 bits follow them. */
  lemma {:induction false} BytesOfBytesBits(d: seq<byte>, tail: bits)
    requires |tail| < 8
    ensures BitsToBytes(BytesBits(d) + tail) == d
  {
    if d != [] {
      var s := BytesBits(d) + tail;
      var head := NatBits(d[0], 8);
      assert s[..8] == head && s[8..] == BytesBits(d[1..]) + tail by {
        assert s == head + (BytesBits(d[1..]) + tail);
      }
      assert Value(head) == d[0] by {
        Pow2Facts();
        ValueOfNatBits(d[0], 8);
      }
      assert BitsToBytes(s) == [d[0]] + BitsToBytes(s[8..]);
      BytesOfBytesBits(d[1..], tail);
      assert d == [d[0]] + d[1..];
    }
  }

  lemma {:induction false} DigitsOfChars(v: seq<sextet>)
    ensures Digits(Chars(v)) == v
  {
    if v != [] {
      var c := SextetChar(v[0]);
      assert Chars(v) == [c] + Chars(v[1..]);
      DigitsAppend([c], Chars(v[1..]));
      assert Digits([c]) == [v[0]] by {
        DecodeSextetChar(v[0]);
        assert [c][..0] == [];
      }
      DigitsOfChars(v[1..]);
      assert v == [v[0]] + v[1..];
    }
  }

  lemma {:induction false} DigitsAppend(a: string, b: string)
    ensures Digits(a + b) == Digits(a) + Digits(b)
    decreases |b|
  {
    if b == [] {
      assert a + b == a;
    } else {
      var b' := b[..|b| - 1];
      assert (a + b)[..|a + b| - 1] == a + b';
      DigitsAppend(a, b');
    }
  }

  // ---------------------------------------------------------------------
  // Properties of the codec

  /** Every character is in the alphabet. */
  ghost predicate Alphabetic(s: string)
  {
    forall i :: 0 <= i < |s| ==> DecodeChar(s[i]) >= 0
  }

  /** A full quantum is four alphabet characters; a final quantum of one
      or two bytes ends in "==" or "=". */
  lemma QuantumShape(g: seq<byte>)
    requires 1 <= |g| <= 3
    ensures var q := EncodeQuantum(g);
      && |q| == 4
      && Alphabetic(q[..|g| + 1])
      && q[|g| + 1..] == Padding(|g|)
  {
    var v := Sextets(QuantumBits(g));
    var cs := Chars(v);
    var q := EncodeQuantum(g);
    assert q[..|g| + 1] == cs && q[|g| + 1..] == Padding(|g|);
    forall i | 0 <= i < |cs| ensures DecodeChar(cs[i]) >= 0 {
      CharsAt(v, i);
      DecodeSextetChar(v[i]);
    }
  }

  /** An encoding is `4 * ceil(n / 3)` characters long. */
  lemma {:induction false} EncodeLength(d: seq<byte>)
    ensures |EncodeSpec(d)| == 4 * ((|d| + 2) / 3)
  {
    if d == [] {
    } else if |d| <= 3 {
      QuantumShape(d);
      assert (|d| + 2) / 3 == 1;
    } else {
      assert |EncodeSpec(d)| == 4 + |EncodeSpec(d[3..])| by {
        assert EncodeSpec(d) == EncodeQuantum(d[..3]) + EncodeSpec(d[3..]);
        QuantumShape(d[..3]);
      }
      EncodeLength(d[3..]);
      GroupCount(|d|);
    }
  }

  /** `r` is alphabet characters followed by `pad`. */
  ghost predicate Shaped(r: string, pad: string)
  {
    |pad| <= |r| && Alphabetic(r[..|r| - |pad|]) && r[|r| - |pad|..] == pad
  }

  lemma GroupCount(n: nat)
    requires n > 3
    ensures 4 + 4 * ((n - 3 + 2) / 3) == 4 * ((n + 2) / 3)
  {
  }

  /** An encoding is alphabet characters followed by the padding. */
  lemma {:induction false} EncodeShape(d: seq<byte>)
    ensures Shaped(EncodeSpec(d), Padding(|d|))
  {
    if d == [] {
    } else if |d| <= 3 {
      QuantumShape(d);
    } else {
      var q := EncodeQuantum(d[..3]);
      assert |q| == 4 && Alphabetic(q) by {
        QuantumShape(d[..3]);
        assert q[..4] == q;
      }
      assert Padding(|d[3..]|) == Padding(|d|) by {
        assert |d[3..]| % 3 == |d| % 3;
      }
      EncodeShape(d[3..]);
      ShapedPrefix(q, EncodeSpec(d[3..]), Padding(|d|));
    }
  }

  lemma ShapedPrefix(q: string, rest: string, pad: string)
    requires Alphabetic(q) && Shaped(rest, pad)
    ensures Shaped(q + rest, pad)
  {
    var body := rest[..|rest| - |pad|];
    assert rest == body + pad;
    assert q + rest == (q + body) + pad;
    AlphabeticAppend(q, body);
  }

  lemma AlphabeticAppend(a: string, b: string)
    requires Alphabetic(a) && Alphabetic(b)
    ensures Alphabetic(a + b)
  {
    forall i | 0 <= i < |a + b| ensures DecodeChar((a + b)[i]) >= 0 {
      if i >= |a| { assert (a + b)[i] == b[i - |a|]; }
    }
  }

  /** Decoding a text that begins with '='-free characters: their groups
      come first in the bit stream. */
  lemma DecodeConcat(q: string, t: string)
    requires '=' !in q
    requires |Digits(q)| % 4 == 0
    ensures DecodeSpec(q + t) == BitsToBytes(SextetStream(Digits(q))) + DecodeSpec(t)
  {
    var rest := Text.Before(t, '=');
    var a, b := SextetStream(Digits(q)), SextetStream(Digits(rest));
    Text.BeforeAppend(q, t, '=');
    assert SextetStream(Digits(q + rest)) == a + b by {
      DigitsAppend(q, rest);
      SextetStreamConcat(Digits(q), Digits(rest));
    }
    assert BitsToBytes(a + b) == BitsToBytes(a) + BitsToBytes(b) by {
      WholeBytes(|Digits(q)|);
      BitsToBytesAppend(a, b);
    }
  }

  /** Four 6-bit groups make three whole bytes. */
  lemma WholeBytes(n: nat)
    requires n % 4 == 0
    ensures (6 * n) % 8 == 0
  {
    var m := n / 4;
    assert 6 * n == 8 * (3 * m);
  }

  /** The characters of a quantum give back the bits of its bytes. */
  lemma QuantumDigits(g: seq<byte>)
    requires 1 <= |g| <= 3
    ensures var q := EncodeQuantum(g);
      && Text.Before(q, '=') == q[..|g| + 1]
      && '=' !in q[..|g| + 1]
      && SextetStream(Digits(q[..|g| + 1])) == QuantumBits(g)
  {
    var b := QuantumBits(g);
    var v := Sextets(b);
    var cs := Chars(v);
    var q := EncodeQuantum(g);
    assert q[..|g| + 1] == cs;
    assert '=' !in cs by {
      forall i | 0 <= i < |cs| ensures cs[i] != '=' {
        CharsAt(v, i);
      }
    }
    assert Text.Before(q, '=') == cs by {
      Text.BeforeAppend(cs, Padding(|g|), '=');
    }
    DigitsOfChars(v);
    StreamOfSextets(b);
  }

  /** Decoding undoes encoding. */
  lemma {:induction false} RoundTrip(d: seq<byte>)
    ensures DecodeSpec(EncodeSpec(d)) == d
  {
    if d == [] {
    } else if |d| <= 3 {
      var q := EncodeQuantum(d);
      QuantumDigits(d);
      BytesOfBytesBits(d, Zeros(PadBits(|d|)));
    } else {
      var g := d[..3];
      var q := EncodeQuantum(g);
      QuantumDigits(g);
      assert q[..4] == q;
      assert Zeros(PadBits(3)) == [];
      assert BytesBits(g) + [] == BytesBits(g);
      BytesOfBytesBits(g, []);
      DecodeConcat(q, EncodeSpec(d[3..]));
      RoundTrip(d[3..]);
      assert d == g + d[3..];
    }
  }

  /** `k` accepted characters before the first '=' give `floor(6k / 8)`
      bytes: an incomplete final byte is dropped. */
  lemma DecodedLength(s: string)
    ensures |DecodeSpec(s)| == 6 * |Digits(Text.Before(s, '='))| / 8
  {
  }

  /** Decoding stops at the first '=': nothing after it matters. */
  lemma StopsAtPad(a: string, b: string)
    requires '=' !in a
    ensures DecodeSpec(a + "=" + b) == DecodeSpec(a)
  {
    assert a + "=" + b == a + ("=" + b);
    Text.BeforeAppend(a, "=" + b, '=');
    Text.BeforeAppend(a, [], '=');
    assert a + [] == a;
  }

  /** Characters outside the alphabet (other than '=') are skipped. */
  lemma SkipsInvalid(a: string, c: char, b: string)
    requires c != '=' && DecodeChar(c) < 0
    ensures DecodeSpec(a + [c] + b) == DecodeSpec(a + b)
  {
    if '=' in a {
      assert a + [c] + b == a + ([c] + b);
      SameBeforePad(a, [c] + b, b);
    } else {
      SkipBeforePad(a, c, b);
    }
  }

  /** After a '=' the text does not matter. */
  lemma SameBeforePad(a: string, x: string, y: string)
    requires '=' in a
    ensures DecodeSpec(a + x) == DecodeSpec(a + y)
  {
    Text.BeforeInPrefix(a, x, '=');
    Text.BeforeInPrefix(a, y, '=');
  }

  lemma SkipBeforePad(a: string, c: char, b: string)
    requires '=' !in a && c != '=' && DecodeChar(c) < 0
    ensures DecodeSpec(a + [c] + b) == DecodeSpec(a + b)
  {
    var rest := Text.Before(b, '=');
    assert Digits(Text.Before(a + [c] + b, '=')) == Digits(a + rest) by {
      assert '=' !in a + [c];
      Text.BeforeAppend(a + [c], b, '=');
      DigitsAppend(a + [c], rest);
      DigitsAppend(a, rest);
      assert (a + [c])[..|a|] == a;
    }
    Text.BeforeAppend(a, b, '=');
  }

  // ---------------------------------------------------------------------
  // The C++ loops

  /** The four characters the encoder pushes for a group of `k` bytes packed
      into `n` (lines 20-23). */
  function Quantum(n: nat, k: nat): string
  {
    [SextetChar((n / 262144) % 64), SextetChar((n / 4096) % 64),
     if k > 1 then SextetChar((n / 64) % 64) else '=',
     if k > 2 then SextetChar(n % 64) else '=']
  }

  /** One quantum, as the encoder computes it from `n`. */
  lemma EncodeGroup(g: seq<byte>, n: nat)
    requires 1 <= |g| <= 3
    requires n == g[0] as int * 65536 + (if |g| > 1 then g[1] as int * 256 else 0) + (if |g| > 2 then g[2] else 0)
    ensures EncodeQuantum(g) == Quantum(n, |g|)
  {
    var q := EncodeQuantum(g);
    var expected := Quantum(n, |g|);
    Pow2Facts();
    assert Pow2(0) == 1;
    QuantumCharAt(g, n, 0);
    QuantumCharAt(g, n, 1);
    QuantumCharAt(g, n, 2);
    QuantumCharAt(g, n, 3);
    assert |q| == 4 by {
      QuantumShape(g);
    }
  }

  /** Character `j` of a quantum: the encoder's shift-and-mask of `n`, or
      '=' past the bytes. */
  lemma QuantumCharAt(g: seq<byte>, n: nat, j: nat)
    requires 1 <= |g| <= 3 && j < 4
    requires n == g[0] as int * 65536 + (if |g| > 1 then g[1] as int * 256 else 0) + (if |g| > 2 then g[2] else 0)
    ensures j <= |g| ==> EncodeQuantum(g)[j] == SextetChar((n / Pow2(18 - 6 * j)) % 64)
    ensures j > |g| ==> EncodeQuantum(g)[j] == '='
  {
    var v := Sextets(QuantumBits(g));
    assert EncodeQuantum(g) == Chars(v) + Padding(|g|);
    if j <= |g| {
      CharsAt(v, j);
      SextetOfGroup(g, n, j);
    }
  }

  /** Group `j` of a quantum is the encoder's shift-and-mask of `n`. */
  lemma SextetOfGroup(g: seq<byte>, n: nat, j: nat)
    requires 1 <= |g| <= 3 && j <= |g|
    requires n == g[0] as int * 65536 + (if |g| > 1 then g[1] as int * 256 else 0) + (if |g| > 2 then g[2] else 0)
    ensures Sextets(QuantumBits(g))[j] == (n / Pow2(18 - 6 * j)) % 64
  {
    var full := BytesBits(g) + Zeros(24 - 8 * |g|);
    var b := QuantumBits(g);
    assert |full| == 24;
    assert Sextets(b)[j] == Value(full[6 * j..6 * j + 6]) by {
      QuantumPrefix(g);
      assert b[6 * j..6 * j + 6] == full[6 * j..6 * j + 6];
      SextetsAt(b, j);
    }
    assert Value(full[6 * j..6 * j + 6]) == (n / Pow2(18 - 6 * j)) % Pow2(6) by {
      GroupValue(g);
      ValueSlice(full, 6 * j, 6 * j + 6);
    }
    Pow2Facts();
  }

  /** A quantum's bits are the first groups of its 24 zero-completed bits. */
  lemma QuantumPrefix(g: seq<byte>)
    requires 1 <= |g| <= 3
    ensures QuantumBits(g) == (BytesBits(g) + Zeros(24 - 8 * |g|))[..6 * (|g| + 1)]
  {
    var a, p, z := BytesBits(g), PadBits(|g|), Zeros(24 - 8 * |g|);
    assert p <= |z| && |a| + p == 6 * (|g| + 1) by {
      assert QuantumBits(g) == a + Zeros(p);
    }
    PrefixOfAppend(a, z, p);
    ZerosPrefix(p, |z|);
  }

  lemma PrefixOfAppend(a: bits, z: bits, p: nat)
    requires p <= |z|
    ensures (a + z)[..|a| + p] == a + z[..p]
  {
  }

  lemma {:induction false} ZerosPrefix(m: nat, n: nat)
    requires m <= n
    ensures Zeros(n)[..m] == Zeros(m)
  {
    if m < n {
      assert Zeros(n)[..m] == Zeros(n - 1)[..m];
      ZerosPrefix(m, n - 1);
    }
  }

  /** The 24 bits of a zero-completed quantum have the value the encoder
      assembles with shifts. */
  lemma GroupValue(g: seq<byte>)
    requires 1 <= |g| <= 3
    ensures Value(BytesBits(g) + Zeros(24 - 8 * |g|))
      == g[0] as int * 65536 + (if |g| > 1 then g[1] as int * 256 else 0) + (if |g| > 2 then g[2] else 0)
  {
    var b0, b1, b2 := ByteBits(g, 0), ByteBits(g, 1), ByteBits(g, 2);
    var v1: int := if |g| > 1 then g[1] else 0;
    var v2: int := if |g| > 2 then g[2] else 0;
    GroupBits(g);
    assert Value(b1 + b2) == v1 * 256 + v2 by {
      ValueAppend(b1, b2);
      ByteValue(g, 1);
      ByteValue(g, 2);
      Pow2Facts();
    }
    assert Value(b0 + (b1 + b2)) == g[0] as int * 65536 + Value(b1 + b2) by {
      ValueAppend(b0, b1 + b2);
      ByteValue(g, 0);
      Pow2Facts();
    }
  }

  /** The 8 bits of byte `k` of a quantum, zero bits past its end. */
  function ByteBits(g: seq<byte>, k: nat): (r: bits)
    ensures |r| == 8
  {
    if k < |g| then NatBits(g[k], 8) else Zeros(8)
  }

  lemma GroupBits(g: seq<byte>)
    requires 1 <= |g| <= 3
    ensures BytesBits(g) + Zeros(24 - 8 * |g|) == ByteBits(g, 0) + (ByteBits(g, 1) + ByteBits(g, 2))
  {
    assert BytesBits(g[|g|..]) == [];
    if |g| == 1 {
      ZerosAppend(8, 8);
      assert BytesBits(g) == ByteBits(g, 0) + [];
    } else if |g| == 2 {
      assert BytesBits(g[1..]) == ByteBits(g, 1) + BytesBits(g[2..]);
    } else {
      assert BytesBits(g[1..]) == ByteBits(g, 1) + BytesBits(g[2..]);
      assert BytesBits(g[2..]) == ByteBits(g, 2) + BytesBits(g[3..]);
    }
  }

  lemma {:induction false} ZerosAppend(m: nat, n: nat)
    ensures Zeros(m + n) == Zeros(m) + Zeros(n)
  {
    if n == 0 {
      assert Zeros(m) + [] == Zeros(m);
    } else {
      ZerosAppend(m, n - 1);
    }
  }

  /** The value of byte `k` of a quantum (zero past its end). */
  lemma ByteValue(g: seq<byte>, k: nat)
    ensures Value(ByteBits(g, k)) == if k < |g| then g[k] as int else 0
  {
    Pow2Facts();
    if k < |g| {
      ValueOfNatBits(g[k], 8);
    } else {
      ValueZeros(8);
    }
  }

  /** One iteration of the encoder produces the next quantum. */
  lemma EncodeStep(data: seq<byte>, i: nat, n: nat)
    requires i < |data|
    requires n == data[i] as int * 65536 + (if i + 1 < |data| then data[i + 1] as int * 256 else 0)
                 + (if i + 2 < |data| then data[i + 2] else 0)
    ensures var next := if i + 3 < |data| then i + 3 else |data|;
      EncodeSpec(data[i..]) == Quantum(n, next - i) + EncodeSpec(data[next..])
  {
    var next := if i + 3 < |data| then i + 3 else |data|;
    var g := data[i..next];
    EncodeGroup(g, n);
    if |data| - i > 3 {
      assert data[i..][..3] == g && data[i..][3..] == data[next..];
    } else {
      assert data[i..] == g && data[next..] == [];
    }
  }

  lemma AppendSpec(data: seq<byte>, before: string, i: nat, next: nat, quantum: string)
    requires i <= next <= |data|
    requires EncodeSpec(data) == before + EncodeSpec(data[i..])
    requires EncodeSpec(data[i..]) == quantum + EncodeSpec(data[next..])
    ensures EncodeSpec(data) == (before + quantum) + EncodeSpec(data[next..])
  {
  }

  /** Lines 11-27: encodes three bytes per iteration. */
  method Base64Encode(data: seq<byte>) returns (result: string)
    ensures result == EncodeSpec(data)
  {
    result := "";
    var length := |data|;
    var i := 0;
    while i < length
      invariant i <= length + 2
      invariant EncodeSpec(data) == result + EncodeSpec(data[if i < length then i else length..])
    {
      var n: int := data[i] as int * 65536;
      if i + 1 < length { n := n + data[i + 1] as int * 256; }
      if i + 2 < length { n := n + data[i + 2]; }
      ghost var next := if i + 3 < length then i + 3 else length;
      ghost var before := result;
      EncodeStep(data, i, n);
      result := result + [SextetChar((n / 262144) % 64)];
      result := result + [SextetChar((n / 4096) % 64)];
      result := result + [if i + 1 < length then SextetChar((n / 64) % 64) else '='];
      result := result + [if i + 2 < length then SextetChar(n % 64) else '='];
      assert result == before + Quantum(n, next - i);
      AppendSpec(data, before, i, next, Quantum(n, next - i));
      i := i + 3;
      assert (if i < length then i else length) == next;
    }
    assert data[0..] == data;
  }

  /** Shifting a group into the buffer keeps its low bits equal to the
      pending part of the stream; the 32-bit wrap-around loses only bits
      that were already emitted. */
  lemma ShiftIn(buffer: nat, pending: nat, val: sextet, p: bits)
    requires pending < 8 && |p| == pending
    requires buffer % Pow2(pending) == Value(p)
    ensures ((buffer * 64 + val) % Unsigned32) % Pow2(pending + 6) == Value(p + NatBits(val, 6))
  {
    var x := buffer * 64 + val;
    var m := Pow2(pending + 6);
    AppendSextetValue(p, val);
    ShiftMod(buffer, pending, val, Value(p));
    assert (x % Unsigned32) % m == x % m by {
      Pow2Add(pending + 6, 26 - pending);
      Pow2Facts();
      ModOfMod(x, m, Pow2(26 - pending));
    }
  }

  lemma AppendSextetValue(p: bits, val: sextet)
    ensures Value(p + NatBits(val, 6)) == Value(p) * 64 + val
  {
    Pow2Facts();
    ValueOfNatBits(val, 6);
    ValueAppend(p, NatBits(val, 6));
  }

  lemma ShiftMod(buffer: nat, pending: nat, val: sextet, vp: nat)
    requires vp < Pow2(pending) && buffer % Pow2(pending) == vp
    ensures (buffer * 64 + val) % Pow2(pending + 6) == vp * 64 + val
  {
    var lowBits: int := Pow2(pending);
    var q: int := buffer / lowBits;
    assert Pow2(pending + 6) == lowBits * 64 by {
      Pow2Add(pending, 6);
      Pow2Facts();
    }
    DivMod(buffer, lowBits);
    ShiftRegroup(buffer, q, lowBits, vp, val);
    DivModUnique(buffer * 64 + val, lowBits * 64, q, vp * 64 + val);
  }

  lemma ShiftRegroup(buffer: int, q: int, lowBits: int, vp: int, val: int)
    requires buffer == q * lowBits + vp
    ensures buffer * 64 + val == q * (lowBits * 64) + (vp * 64 + val)
  {
  }

  /** With at least 8 pending bits, the top 8 of them are the next byte and
      the rest stay pending. */
  lemma EmitByte(buffer: nat, rest: nat, p: bits)
    requires |p| == 8 + rest
    requires buffer % Pow2(8 + rest) == Value(p)
    ensures (buffer / Pow2(rest)) % 256 == Value(p[..8])
    ensures buffer % Pow2(rest) == Value(p[8..])
  {
    var r: int, top: int, low: int := Pow2(rest), Value(p[..8]), Value(p[8..]);
    var m: int := Pow2(8 + rest);
    assert m == 256 * r by {
      Pow2Add(8, rest);
      Pow2Facts();
    }
    assert top < 256 && low < r by {
      ValueBound(p[..8]);
      ValueBound(p[8..]);
      Pow2Facts();
    }
    assert Value(p) == top * r + low by {
      assert p == p[..8] + p[8..];
      ValueAppend(p[..8], p[8..]);
    }
    var t: int := buffer / m;
    DivMod(buffer, m);
    EmitRegroup(buffer, t, m, Value(p), r, top, low);
    DivModUnique(buffer, r, t * 256 + top, low);
    DivModUnique(t * 256 + top, 256, t, top);
  }

  lemma EmitRegroup(buffer: int, t: int, m: int, vp: int, r: int, top: int, low: int)
    requires buffer == t * m + vp && m == 256 * r && vp == top * r + low
    ensures buffer == (t * 256 + top) * r + low
  {
  }

  /** Appending a group to a stream of which `k` bytes are complete. */
  lemma StreamStep(stream: bits, k: nat, x: sextet)
    requires 8 * k <= |stream| < 8 * k + 8
    ensures var s' := stream + NatBits(x, 6);
      var p' := stream[8 * k..] + NatBits(x, 6);
      && s'[8 * k..] == p'
      && (|p'| < 8 ==> BitsToBytes(s') == BitsToBytes(stream))
      && (|p'| >= 8 ==> BitsToBytes(s') == BitsToBytes(stream) + [Value(p'[..8])] && s'[8 * k + 8..] == p'[8..])
  {
    var head, p := stream[..8 * k], stream[8 * k..];
    var p' := p + NatBits(x, 6);
    assert stream == head + p;
    assert stream + NatBits(x, 6) == head + p';
    BitsToBytesAppend(head, p);
    BitsToBytesAppend(head, p');
    assert BitsToBytes(p) == [];
    if |p'| >= 8 {
      assert BitsToBytes(p'[8..]) == [];
    }
  }

  /** What the decoder's `buffer` and `bits` mean after the groups `v`:
      `result` holds every complete byte of their bit stream, and the low
      `pending` bits of `buffer` are the rest of the stream. */
  ghost predicate Decoder(v: seq<sextet>, result: seq<byte>, pending: nat, buffer: nat)
  {
    && pending < 8 && 6 * |v| == 8 * |result| + pending
    && result == BitsToBytes(SextetStream(v))
    && buffer < Unsigned32
    && buffer % Pow2(pending) == Value(SextetStream(v)[8 * |result|..])
  }

  /** One accepted character (lines 50-56) keeps the decoder's meaning:
      while fewer than 8 bits are pending, it only shifts them in ... */
  lemma DecodeShift(v: seq<sextet>, result: seq<byte>, pending: nat, buffer: nat, val: sextet)
    requires Decoder(v, result, pending, buffer) && pending + 6 < 8
    ensures Decoder(v + [val], result, pending + 6, (buffer * 64 + val) % Unsigned32)
  {
    ShiftStep(v, result, pending, buffer, val);
  }

  /** ... and once 8 bits are pending, the top 8 of them are the next byte. */
  lemma DecodeEmit(v: seq<sextet>, result: seq<byte>, pending: nat, buffer: nat, val: sextet)
    requires Decoder(v, result, pending, buffer) && pending + 6 >= 8
    ensures var buffer' := (buffer * 64 + val) % Unsigned32;
      Decoder(v + [val], result + [(buffer' / Pow2(pending - 2)) % 256], pending - 2, buffer')
  {
    ShiftStep(v, result, pending, buffer, val);
    var p := SextetStream(v)[8 * |result|..] + NatBits(val, 6);
    EmitByte((buffer * 64 + val) % Unsigned32, pending - 2, p);
  }

  /** The stream and the buffer after shifting in one group. */
  lemma ShiftStep(v: seq<sextet>, result: seq<byte>, pending: nat, buffer: nat, val: sextet)
    requires Decoder(v, result, pending, buffer)
    ensures var stream := SextetStream(v);
      var p' := stream[8 * |result|..] + NatBits(val, 6);
      var buffer' := (buffer * 64 + val) % Unsigned32;
      && buffer' < Unsigned32
      && buffer' % Pow2(pending + 6) == Value(p')
      && SextetStream(v + [val])[8 * |result|..] == p'
      && (|p'| < 8 ==> BitsToBytes(SextetStream(v + [val])) == result)
      && (|p'| >= 8 ==> BitsToBytes(SextetStream(v + [val])) == result + [Value(p'[..8])]
                        && SextetStream(v + [val])[8 * |result| + 8..] == p'[8..])
  {
    var stream := SextetStream(v);
    assert SextetStream(v + [val]) == stream + NatBits(val, 6) by {
      SextetStreamAppend(v, val);
    }
    ShiftIn(buffer, pending, val, stream[8 * |result|..]);
    StreamStep(stream, |result|, val);
  }

  /** Lines 29-60: shifts each accepted character into the buffer. */
  method Base64Decode(encoded: string) returns (result: seq<byte>)
    ensures result == DecodeSpec(encoded)
  {
    result := [];
    if |encoded| == 0 { return; }
    var buffer: nat := 0;  // unsigned int
    var pending: nat := 0; // `bits` in the C++ code
    ghost var v: seq<sextet> := [];
    var i := 0;
    while i < |encoded|
      invariant 0 <= i <= |encoded|
      invariant '=' !in encoded[..i]
      invariant v == Digits(encoded[..i])
      invariant Decoder(v, result, pending, buffer)
    {
      var c := encoded[i];
      if c == '=' {
        Text.BeforeAt(encoded, '=', i);
        break;
      }
      var val := DecodeChar(c);
      assert encoded[..i + 1] == encoded[..i] + [c];
      if val >= 0 {
        ghost var buffer0, pending0 := buffer, pending;
        buffer := (buffer * 64 + val) % Unsigned32;
        pending := pending + 6;
        if pending >= 8 {
          DecodeEmit(v, result, pending0, buffer0, val);
          pending := pending - 8;
          result := result + [(buffer / Pow2(pending)) % 256];
        } else {
          DecodeShift(v, result, pending0, buffer0, val);
        }
        v := v + [val];
      }
      i := i + 1;
    }
    if i == |encoded| {
      Text.BeforeAt(encoded, '=', i);
    }
  }
}
