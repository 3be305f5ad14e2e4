/** Request signing of the authentication proxy: a random hex nonce, an
    HMAC-SHA256 over timestamp, nonce and body, and the five request
    headers that carry them.

    The random bytes, the clock and HMAC-SHA256 itself are parameters:
    `Mac` maps a key and a message to the 32-byte digest. */
module ProxySigning {
  import Text
  import Hex
  import Base64
  import opened Wrappers

  type byte = Hex.byte
  type Mac = (string, string) -> seq<byte>

  const DefaultNonceLength: int := 32

  /** `generate_nonce(length)`: `secrets.token_hex(length // 2)`, where
      `random` is the `length // 2` bytes drawn. A negative length makes
      the random source raise, modelled as `None`. */
  function GenerateNonce(length: int, random: seq<byte>): (r: Option<string>)
    requires length >= 0 ==> |random| == length / 2
    ensures r.None? <==> length < 0
    ensures r.Some? ==> |r.value| == 2 * (length / 2) && Hex.IsHex(r.value)
  {
    if length < 0 then None else Some(Hex.Encode(random))
  }

  /** The nonce carries exactly the random bytes drawn; with the default
      length it is 32 hex characters, and an odd length loses one. */
  lemma NonceProperties(length: int, random: seq<byte>)
    requires length >= 0 && |random| == length / 2
    ensures Hex.Decode(GenerateNonce(length, random).value) == random
    ensures length == DefaultNonceLength ==> |GenerateNonce(length, random).value| == 32
    ensures |GenerateNonce(length, random).value| == length - length % 2
  {
    Hex.DecodeEncode(random);
    Base64.DivMod(length, 2);
  }

  /** The message that is signed: `f"{timestamp}{nonce}{body}"`. */
  function SigningString(timestamp: int, nonce: string, body: string): (r: string)
    ensures |r| == |Text.IntToString(timestamp)| + |nonce| + |body|
    ensures r[..|Text.IntToString(timestamp)|] == Text.IntToString(timestamp)
    ensures r[|r| - |body|..] == body
  {
    Text.IntToString(timestamp) + nonce + body
  }

  /** `generate_signature`: the hex digest of the HMAC under the secret. */
  function GenerateSignature(mac: Mac, secretKey: string, timestamp: int, nonce: string,
                             body: string): (r: string)
    ensures Hex.IsHex(r)
    ensures |mac(secretKey, SigningString(timestamp, nonce, body))| == 32 ==> |r| == 64
  {
    Hex.Encode(mac(secretKey, SigningString(timestamp, nonce, body)))
  }

  /** `get_auth_headers` at time `timestamp` with `random` as the nonce's
      16 random bytes. */
  function AuthHeaders(mac: Mac, integrationKey: string, secretKey: string, body: string,
                       timestamp: int, random: seq<byte>): (r: map<string, string>)
    requires |random| == DefaultNonceLength / 2
    ensures r.Keys == {"Content-Type", "X-Integration-Key", "X-Signature", "X-Timestamp", "X-Nonce"}
    ensures r["Content-Type"] == "application/json"
    ensures r["X-Integration-Key"] == integrationKey
    ensures r["X-Timestamp"] == Text.IntToString(timestamp)
    ensures |r["X-Nonce"]| == 32 && Hex.IsHex(r["X-Nonce"])
  {
    var nonce := GenerateNonce(DefaultNonceLength, random).value;
    map["Content-Type" := "application/json",
        "X-Integration-Key" := integrationKey,
        "X-Signature" := GenerateSignature(mac, secretKey, timestamp, nonce, body),
        "X-Timestamp" := Text.IntToString(timestamp),
        "X-Nonce" := nonce]
  }

  /** How the API checks a request: recompute the HMAC over the
      `X-Timestamp` and `X-Nonce` headers and the body, and compare it with
      the digest in `X-Signature`. */
  predicate Verifies(mac: Mac, secretKey: string, headers: map<string, string>, body: string)
  {
    && {"X-Signature", "X-Timestamp", "X-Nonce"} <= headers.Keys
    && |headers["X-Signature"]| % 2 == 0
    && Hex.IsHex(headers["X-Signature"])
    && Hex.Decode(headers["X-Signature"])
       == mac(secretKey, headers["X-Timestamp"] + headers["X-Nonce"] + body)
  }

  /** Every header set the proxy builds passes that check for the body it
      was built for. */
  lemma HeadersVerify(mac: Mac, integrationKey: string, secretKey: string, body: string,
                      timestamp: int, random: seq<byte>)
    requires |random| == DefaultNonceLength / 2
    ensures Verifies(mac, secretKey, AuthHeaders(mac, integrationKey, secretKey, body, timestamp, random), body)
  {
    var h := AuthHeaders(mac, integrationKey, secretKey, body, timestamp, random);
    var nonce := GenerateNonce(DefaultNonceLength, random).value;
    var digest := mac(secretKey, SigningString(timestamp, nonce, body));
    assert h["X-Nonce"] == nonce;
    assert h["X-Signature"] == Hex.Encode(digest);
    assert h["X-Timestamp"] + h["X-Nonce"] + body == SigningString(timestamp, nonce, body);
    Hex.DecodeEncode(digest);
  }
}
