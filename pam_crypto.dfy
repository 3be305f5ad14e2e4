/** The PAM module's request signing: a 32-character hexadecimal nonce,
    the hexadecimal HMAC-SHA256 of the signing string, and the signing
    string itself, all written into caller-supplied character buffers.

    The random bytes (`RAND_bytes`) and the HMAC (RFC 2104 over SHA-256,
    OpenSSL's `HMAC`) are parameters: the bytes as a value, `None` when the
    generator fails, and the HMAC as an uninterpreted function. */
module PamCrypto {
  import Text
  import Hex
  import ProxySigning
  import opened Wrappers
  import opened CString

  type byte = Hex.byte

  const NonceLength := 32
  const SignatureLength := 64
  /** The random bytes behind a nonce. */
  const NonceBytes := 16
  /** The bytes of a SHA-256 digest. */
  const DigestBytes := 32

  /** The range of a C `long` on the 64-bit platforms the module targets. */
  const LongMin := -0x8000_0000_0000_0000
  const LongMax := 0x7FFF_FFFF_FFFF_FFFF

  /** HMAC-SHA256 of `data` under `key`, or `None` when the call fails. */
  type Hmac = (string, string) -> Option<seq<byte>>

  /** The `sprintf(out + 2 * i, "%02x", bytes[i])` loop: two lower-case
      digits per byte, each call also writing a NUL after its digits. */
  method WriteHex(out: array<char>, bytes: seq<byte>)
    requires 2 * |bytes| < out.Length
    modifies out
    ensures out[..2 * |bytes|] == Hex.Encode(bytes)
    ensures bytes != [] ==> out[2 * |bytes|] == '\0'
    ensures bytes == [] ==> out[..] == old(out[..])
    ensures out[2 * |bytes| + 1..] == old(out[2 * |bytes| + 1..])
  {
    var i := 0;
    while i < |bytes|
      invariant 0 <= i <= |bytes|
      invariant out[..2 * i] == Hex.Encode(bytes[..i])
      invariant i > 0 ==> out[2 * i] == '\0'
      invariant i == 0 ==> out[..] == old(out[..])
      invariant out[2 * i + 1..] == old(out[2 * i + 1..])
    {
      Hex.EncodeSnoc(bytes, i);
      ghost var before := out[..2 * i];
      out[2 * i] := Hex.Digit(bytes[i] / 16);
      out[2 * i + 1] := Hex.Digit(bytes[i] % 16);
      out[2 * i + 2] := '\0';
      assert out[..2 * i + 2] == before + [Hex.Digit(bytes[i] / 16), Hex.Digit(bytes[i] % 16)];
      i := i + 1;
    }
    assert bytes[..i] == bytes;
  }

  /** Hexadecimal text holds no NUL. */
  lemma HexHasNoNul(s: string)
    requires Hex.IsHex(s)
    ensures forall j :: 0 <= j < |s| ==> s[j] != '\0'
  {
  }

  /** `crypto_generate_nonce`: a buffer shorter than 33 characters or a
      failed generator gives -1 and leaves the buffer alone; otherwise
      the buffer holds the 32 hexadecimal digits of the 16 random bytes
      and a NUL. */
  method GenerateNonce(nonce: array<char>, random: Option<seq<byte>>) returns (rc: int)
    requires random.Some? ==> |random.value| == NonceBytes
    modifies nonce
    ensures rc == 0 <==> nonce.Length >= NonceLength + 1 && random.Some?
    ensures rc != 0 ==> rc == -1 && nonce[..] == old(nonce[..])
    ensures rc == 0 ==> nonce[..NonceLength] == Hex.Encode(random.value)
    ensures rc == 0 ==> CStr(nonce[..], 0) == Hex.Encode(random.value)
    ensures rc == 0 ==> nonce[NonceLength + 1..] == old(nonce[NonceLength + 1..])
  {
    if nonce.Length < NonceLength + 1 {
      return -1;
    }
    if random.None? {
      return -1;
    }
    WriteHex(nonce, random.value);
    nonce[NonceLength] := '\0';
    assert nonce[..NonceLength] == Hex.Encode(random.value);
    HexHasNoNul(Hex.Encode(random.value));
    CStrIs(nonce[..], Hex.Encode(random.value));
    return 0;
  }

  /** `crypto_hmac_sha256`: an output buffer shorter than 65 characters or
      a failed HMAC gives -1 and leaves the buffer alone; otherwise the
      buffer holds the digest in hexadecimal and a NUL. */
  method HmacSha256(key: string, data: string, output: array<char>, hmac: Hmac) returns (rc: int)
    requires hmac(key, data).Some? ==> |hmac(key, data).value| == DigestBytes
    modifies output
    ensures rc == 0 <==> output.Length >= SignatureLength + 1 && hmac(key, data).Some?
    ensures rc != 0 ==> rc == -1 && output[..] == old(output[..])
    ensures rc == 0 ==> output[..SignatureLength] == Hex.Encode(hmac(key, data).value)
    ensures rc == 0 ==> CStr(output[..], 0) == Hex.Encode(hmac(key, data).value)
    ensures rc == 0 ==> output[SignatureLength + 1..] == old(output[SignatureLength + 1..])
  {
    if output.Length < SignatureLength + 1 {
      return -1;
    }
    var digest := hmac(key, data);
    if digest.None? {
      return -1;
    }
    WriteHex(output, digest.value);
    output[2 * |digest.value|] := '\0';
    assert output[..SignatureLength] == Hex.Encode(digest.value);
    HexHasNoNul(Hex.Encode(digest.value));
    CStrIs(output[..], Hex.Encode(digest.value));
    return 0;
  }

  /** The signing string as `snprintf` writes it into a buffer of
      `32 + |nonce| + |body| + 1` characters: the decimal timestamp, the
      nonce and the body, cut to the room the buffer has. */
  function SigningData(timestamp: int, nonce: string, body: string): (r: string)
    ensures |r| <= 32 + |nonce| + |body|
    ensures |r| <= |Text.IntToString(timestamp) + nonce + body|
    ensures r == (Text.IntToString(timestamp) + nonce + body)[..|r|]
  {
    var full := Text.IntToString(timestamp) + nonce + body;
    var room := 32 + |nonce| + |body|;
    if |full| <= room then full else full[..room]
  }

  function Pow10(k: nat): (r: nat)
    ensures r >= 1
  {
    if k == 0 then 1 else 10 * Pow10(k - 1)
  }

  /** A number below `10^k` has at most `k` decimal digits. */
  lemma {:induction false} NatDigits(n: nat, k: nat)
    requires 1 <= k && n < Pow10(k)
    ensures |Text.NatToString(n)| <= k
    decreases k
  {
    if n >= 10 {
      assert k >= 2 && n / 10 < Pow10(k - 1);
      NatDigits(n / 10, k - 1);
    }
  }

  /** A `long` prints in at most 20 characters. */
  lemma LongWidth(timestamp: int)
    requires LongMin <= timestamp <= LongMax
    ensures |Text.IntToString(timestamp)| <= 20
  {
    assert Pow10(4) == 10_000;
    assert Pow10(8) == 100_000_000;
    assert Pow10(12) == 1_000_000_000_000;
    assert Pow10(16) == 10_000_000_000_000_000;
    assert Pow10(19) == 10_000_000_000_000_000_000;
    if timestamp < 0 {
      NatDigits(-timestamp, 19);
    } else {
      NatDigits(timestamp, 19);
    }
  }

  /** For a `long` timestamp the buffer always has room, so the string
      signed is exactly the decimal timestamp, the nonce and the body:
      the string the proxy signs. */
  lemma SigningDataFits(timestamp: int, nonce: string, body: string)
    requires LongMin <= timestamp <= LongMax
    ensures SigningData(timestamp, nonce, body) == Text.IntToString(timestamp) + nonce + body
    ensures SigningData(timestamp, nonce, body) == ProxySigning.SigningString(timestamp, nonce, body)
  {
    LongWidth(timestamp);
  }

  /** `crypto_sign_request`: `mallocOk` is false when the `malloc` of the
      signing string fails, which gives -1 with the signature untouched;
      otherwise the result of `crypto_hmac_sha256` over the signing
      string. */
  method SignRequest(secretKey: string, timestamp: int, nonce: string, body: string,
                     signature: array<char>, hmac: Hmac, mallocOk: bool) returns (rc: int)
    requires hmac(secretKey, SigningData(timestamp, nonce, body)).Some? ==>
      |hmac(secretKey, SigningData(timestamp, nonce, body)).value| == DigestBytes
    modifies signature
    ensures rc == 0 <==> mallocOk && signature.Length >= SignatureLength + 1
                         && hmac(secretKey, SigningData(timestamp, nonce, body)).Some?
    ensures rc != 0 ==> rc == -1 && signature[..] == old(signature[..])
    ensures rc == 0 ==> CStr(signature[..], 0)
                        == Hex.Encode(hmac(secretKey, SigningData(timestamp, nonce, body)).value)
    ensures rc == 0 ==> signature[SignatureLength + 1..] == old(signature[SignatureLength + 1..])
  {
    if !mallocOk {
      return -1;
    }
    var data := SigningData(timestamp, nonce, body);
    rc := HmacSha256(secretKey, data, signature, hmac);
  }

  /** With the same HMAC, the PAM module and the proxy put the same
      signature on the same request. */
  lemma SameSignatureAsProxy(hmac: Hmac, mac: ProxySigning.Mac, secretKey: string,
                             timestamp: int, nonce: string, body: string)
    requires LongMin <= timestamp <= LongMax
    requires hmac(secretKey, ProxySigning.SigningString(timestamp, nonce, body))
             == Some(mac(secretKey, ProxySigning.SigningString(timestamp, nonce, body)))
    ensures hmac(secretKey, SigningData(timestamp, nonce, body)).Some?
    ensures Hex.Encode(hmac(secretKey, SigningData(timestamp, nonce, body)).value)
            == ProxySigning.GenerateSignature(mac, secretKey, timestamp, nonce, body)
  {
    SigningDataFits(timestamp, nonce, body);
  }
}
