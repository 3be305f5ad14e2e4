/** The Windows credential provider's backend client `MultiOTP`: the nonce,
    the signed WinHTTP request, the string-scanning JSON reader, the key
    lookup with its plaintext fallback, OTP and push validation with the
    bounded status poll, and the token-type answer.

    WinHTTP is a `Transport` parameter: the clock reading, the 32 random
    draws of the nonce, BCrypt's HMAC-SHA256 (`None` when a BCrypt call
    fails) and what the exchange returns for the request built ("" when any
    WinHTTP stage fails, the body read otherwise). The process-wide
    `g_lastPushRequestId` and `g_lastPushUsername` are the fields of the
    `Client` class. */
module MultiOtp {
  import Text
  import Hex
  import ProxySigning
  import opened Wrappers

  type byte = Hex.byte

  /** The HRESULT codes the credential provider exchanges with this
      client. Codes.h is not part of this model, so the codes are kept
      symbolic: all that matters is that they are distinct. */
  datatype Hresult =
    | PiAuthSuccess | PiAuthFailure | PiAuthError | PiStatusNotSet | PiTriggeredChallenge
    | PiWrongOfflineServerUnavailable | PiEndpointServerUnavailable | PiEndpointSetupError
    | UserLocked | UserDelayed | EPending | EFail | SOk

  // Token types, as numbered in the comment on `userTokenType`.
  const IsPushToken := 6
  const IsWithToken := 7
  const IsWithout2fa := 8
  const IsLocked := 24
  const IsDelayed := 25

  const MaxPushAttempts := 30
  const TotpVerifyPath := "/v1/totp/verify"
  const PushSendPath := "/v1/push/send"
  const PushStatusPath := "/v1/push/status/"

  // ---------------------------------------------------------------------
  // Nonce and signature

  /** The nonce for 32 random draws from 0..15: one hex digit per draw. */
  function NonceOf(draws: seq<Hex.nibble>): (r: string)
    requires |draws| == 32
    ensures |r| == 32 && Hex.IsHex(r)
  {
    seq(32, i requires 0 <= i < 32 => Hex.Digit(draws[i]))
  }

  /** `GenerateNonce`: 32 characters of "0123456789abcdef", one per draw. */
  method GenerateNonce(draws: seq<Hex.nibble>) returns (nonce: string)
    requires |draws| == 32
    ensures nonce == NonceOf(draws)
    ensures |nonce| == 32
    ensures forall i :: 0 <= i < 32 ==> Hex.DigitValue(nonce[i]) == draws[i]
  {
    nonce := [];
    var i := 0;
    while i < 32
      invariant 0 <= i <= 32 && |nonce| == i
      invariant forall j :: 0 <= j < i ==> nonce[j] == Hex.Digit(draws[j])
    {
      nonce := nonce + [Hex.Digit(draws[i])];
      i := i + 1;
    }
    forall j | 0 <= j < 32 ensures Hex.DigitValue(nonce[j]) == draws[j] {
      Hex.DigitValueOfDigit(draws[j]);
    }
  }

  /** BCrypt's HMAC-SHA256 under a key; `None` when a BCrypt call fails. */
  type Bcrypt = (string, string) -> Option<seq<byte>>

  /** The message signed: timestamp, nonce and body. */
  function SigningData(timestamp: int, nonce: string, body: string): (r: string)
    ensures r == ProxySigning.SigningString(timestamp, nonce, body)
  {
    Text.IntToString(timestamp) + nonce + body
  }

  /** `GenerateHmacSha256`: the lower-case hex digest, or "" when BCrypt
      fails. */
  function HmacHex(mac: Bcrypt, key: string, data: string): (r: string)
    ensures Hex.IsHex(r) && |r| % 2 == 0
    ensures mac(key, data).None? ==> r == ""
    ensures mac(key, data).Some? ==>
              |r| == 2 * |mac(key, data).value| && Hex.Decode(r) == mac(key, data).value
  {
    match mac(key, data)
    case None => ""
    case Some(digest) => Hex.DecodeEncode(digest); Hex.Encode(digest)
  }

  /** What `WorldPostaApiRequest` hands to WinHTTP. */
  datatype Request = Request(endpoint: string, verb: string, path: string,
                             headers: seq<(string, string)>, body: string)

  datatype Transport = Transport(now: int, draws: seq<Hex.nibble>, mac: Bcrypt,
                                 perform: Request -> string)

  predicate WellFormed(t: Transport)
  {
    |t.draws| == 32
  }

  /** The five headers, the nonce among them. */
  function Headers(integrationKey: string, signature: string, timestamp: int, nonce: string)
    : seq<(string, string)>
  {
    [("Content-Type", "application/json"),
     ("X-Integration-Key", integrationKey),
     ("X-Signature", signature),
     ("X-Timestamp", Text.IntToString(timestamp)),
     ("X-Nonce", nonce)]
  }

  /** The request `WorldPostaApiRequest(endpoint, path, body, ik, sk, verb)`
      sends with transport `t`. */
  function RequestFor(endpoint: string, path: string, body: string, integrationKey: string,
                      secretKey: string, verb: string, t: Transport): Request
    requires WellFormed(t)
  {
    var nonce := NonceOf(t.draws);
    var signature := HmacHex(t.mac, secretKey, SigningData(t.now, nonce, body));
    Request(endpoint, verb, path, Headers(integrationKey, signature, t.now, nonce), body)
  }

  /** The response text of that request. */
  function Exchange(endpoint: string, path: string, body: string, integrationKey: string,
                    secretKey: string, verb: string, t: Transport): string
    requires WellFormed(t)
  {
    t.perform(RequestFor(endpoint, path, body, integrationKey, secretKey, verb, t))
  }

  /** This client signs timestamp, nonce and body, sends the nonce it
      signed as X-Nonce, and its signature is the proxy's signature for the
      same inputs: 64 lower-case hex characters. */
  lemma SignedWithNonce(endpoint: string, path: string, body: string, integrationKey: string,
                        secretKey: string, verb: string, t: Transport, mac: ProxySigning.Mac)
    requires WellFormed(t)
    requires forall k, m :: t.mac(k, m) == Some(mac(k, m))
    requires forall k, m :: |mac(k, m)| == 32
    ensures var q := RequestFor(endpoint, path, body, integrationKey, secretKey, verb, t);
            && |q.headers| == 5
            && q.headers[4] == ("X-Nonce", NonceOf(t.draws))
            && q.headers[3] == ("X-Timestamp", Text.IntToString(t.now))
            && q.headers[2].1 == ProxySigning.GenerateSignature(mac, secretKey, t.now,
                                                                 NonceOf(t.draws), body)
            && |q.headers[2].1| == 64 && Hex.IsHex(q.headers[2].1)
  {
    var data := SigningData(t.now, NonceOf(t.draws), body);
    assert t.mac(secretKey, data) == Some(mac(secretKey, data));
  }

  // ---------------------------------------------------------------------
  // GetJsonValue

  /** The characters `find_first_not_of(" \t\n\r")` skips. */
  predicate IsBlank(c: char)
  {
    c == ' ' || c == '\t' || c == '\n' || c == '\r'
  }

  /** `find_first_not_of(" \t\n\r", from)`. */
  function SkipBlanks(s: string, from: nat): (r: nat)
    requires from <= |s|
    ensures from <= r <= |s|
    ensures r < |s| ==> !IsBlank(s[r])
    ensures forall j :: from <= j < r ==> IsBlank(s[j])
    decreases |s| - from
  {
    if from == |s| then from else if !IsBlank(s[from]) then from else SkipBlanks(s, from + 1)
  }

  /** The characters `find_first_of(",}]")` stops at. */
  predicate IsStop(c: char)
  {
    c == ',' || c == '}' || c == ']'
  }

  /** `find_first_of(",}]", from)`. */
  function FindStop(s: string, from: nat): (r: nat)
    requires from <= |s|
    ensures from <= r <= |s|
    ensures r < |s| ==> IsStop(s[r])
    ensures forall j :: from <= j < r ==> !IsStop(s[j])
    decreases |s| - from
  {
    if from == |s| then from else if IsStop(s[from]) then from else FindStop(s, from + 1)
  }

  function Quoted(key: string): string
  {
    "\"" + key + "\""
  }

  /** The value read at index `vs`, the first non-blank after the colon. */
  function ValueAt(json: string, vs: nat): (r: string)
    requires vs < |json|
  {
    if json[vs] == '"' then
      var ve := Text.FindFrom(json, '"', vs + 1);
      if ve == |json| then "" else json[vs + 1..ve]
    else if (json[vs] == 't' || json[vs] == 'f') && Text.OccursAt(json, "true", vs) then "true"
    else if (json[vs] == 't' || json[vs] == 'f') && Text.OccursAt(json, "false", vs) then "false"
    else
      var ve := FindStop(json, vs);
      if ve == |json| then "" else json[vs..ve]
  }

  /** The value read after the colon at index `colon` (the length of the
      text when there is none). */
  function ValueAfterColon(json: string, colon: nat): string
    requires colon <= |json|
  {
    if colon == |json| then ""
    else
      var vs := SkipBlanks(json, colon + 1);
      if vs == |json| then "" else ValueAt(json, vs)
  }

  /** `GetJsonValue`: the value after the first colon that follows the
      first occurrence of the quoted key, read by the rules of `ValueAt`. */
  function GetJsonValue(json: string, key: string): (r: string)
    ensures Text.FindSub(json, Quoted(key), 0).None? ==> r == ""
  {
    ValueAfterKey(json, Text.FindSub(json, Quoted(key), 0))
  }

  /** The value after the key found at `keyPos`, or "" when it is absent. */
  function ValueAfterKey(json: string, keyPos: Option<nat>): string
  {
    if keyPos.None? || keyPos.value > |json| then ""
    else ValueAfterColon(json, Text.FindFrom(json, ':', keyPos.value))
  }

  /** A quoted key holds no colon the key does not hold. */
  lemma QuotedNoColon(key: string)
    requires ':' !in key
    ensures ':' !in Quoted(key)
  {
    assert Quoted(key) == ['"'] + key + ['"'];
  }

  /** The first colon at or after the key's occurrence is the one right
      after it, since the quoted key holds none. */
  lemma ColonAfterKey(json: string, q: string, k: nat)
    requires ':' !in q && Text.OccursAt(json, q, k)
    requires k + |q| < |json| && json[k + |q|] == ':'
    ensures Text.FindFrom(json, ':', k) == k + |q|
  {
    forall j | k <= j < k + |q| ensures json[j] != ':' {
      assert json[j] == json[k..k + |q|][j - k];
    }
  }

  /** `SkipBlanks` stops at the first non-blank. */
  lemma SkipsTo(s: string, from: nat, vs: nat)
    requires from <= vs < |s|
    requires forall j :: from <= j < vs ==> IsBlank(s[j])
    requires !IsBlank(s[vs])
    ensures SkipBlanks(s, from) == vs
  {
  }

  /** Reading past the colon at `c` and the blanks up to `vs`. */
  lemma ReadAfterColon(json: string, k: nat, c: nat, vs: nat)
    requires k <= c < vs < |json|
    requires Text.FindFrom(json, ':', k) == c && SkipBlanks(json, c + 1) == vs
    ensures ValueAfterKey(json, Some(k)) == ValueAt(json, vs)
  {
  }

  /** The value of a key whose first occurrence is at `k`, followed by a
      colon and blanks up to `vs`, is the value read at `vs`. */
  lemma ValueStart(json: string, key: string, k: nat, vs: nat)
    requires ':' !in key
    requires Text.FindSub(json, Quoted(key), 0) == Some(k)
    requires k + |Quoted(key)| < vs < |json| && json[k + |Quoted(key)|] == ':'
    requires forall j :: k + |Quoted(key)| < j < vs ==> IsBlank(json[j])
    requires !IsBlank(json[vs])
    ensures GetJsonValue(json, key) == ValueAt(json, vs)
  {
    KeyColon(json, key, k);
    SkipsTo(json, k + |Quoted(key)| + 1, vs);
    ReadAfterColon(json, k, k + |Quoted(key)|, vs);
    KeyFound(json, key, k);
  }

  lemma KeyColon(json: string, key: string, k: nat)
    requires ':' !in key
    requires Text.FindSub(json, Quoted(key), 0) == Some(k)
    requires k + |Quoted(key)| < |json| && json[k + |Quoted(key)|] == ':'
    ensures Text.FindFrom(json, ':', k) == k + |Quoted(key)|
  {
    QuotedNoColon(key);
    ColonAfterKey(json, Quoted(key), k);
  }

  lemma KeyFound(json: string, key: string, k: nat)
    requires Text.FindSub(json, Quoted(key), 0) == Some(k)
    ensures GetJsonValue(json, key) == ValueAfterKey(json, Some(k))
  {
  }

  /** How a text laid out as `pre`, a quoted key, ':', blanks and a tail
      is indexed. */
  lemma Layout(json: string, pre: string, q: string, ws: string, tail: string)
    requires json == pre + q + ":" + ws + tail
    requires forall j :: 0 <= j < |ws| ==> IsBlank(ws[j])
    ensures |pre| + |q| < |json| && json[|pre| + |q|] == ':'
    ensures forall j :: |pre| + |q| < j < |pre| + |q| + 1 + |ws| ==> IsBlank(json[j])
    ensures json[|pre| + |q| + 1 + |ws|..] == tail
  {
    var c := |pre| + |q|;
    forall j | c < j < c + 1 + |ws| ensures IsBlank(json[j]) {
      assert json[j] == ws[j - c - 1];
    }
    var t := c + 1 + |ws|;
    forall j | 0 <= j < |tail| ensures json[t..][j] == tail[j] {
      assert json[t..][j] == json[t + j];
    }
  }

  /** A string value is the text up to the next '"', with no escape
      handling. Only the first occurrence of the key counts: `rest` may
      hold the key again. */
  lemma StringValue(pre: string, key: string, ws: string, v: string, rest: string)
    requires ':' !in key && '"' !in v
    requires forall j :: 0 <= j < |pre| ==>
               !Text.OccursAt(pre + Quoted(key) + ":" + ws + "\"" + v + "\"" + rest, Quoted(key), j)
    requires forall j :: 0 <= j < |ws| ==> IsBlank(ws[j])
    ensures GetJsonValue(pre + Quoted(key) + ":" + ws + "\"" + v + "\"" + rest, key) == v
  {
    var json := pre + Quoted(key) + ":" + ws + "\"" + v + "\"" + rest;
    var tail := "\"" + v + "\"" + rest;
    assert json == pre + Quoted(key) + ":" + ws + tail;
    Layout(json, pre, Quoted(key), ws, tail);
    var vs := |pre| + |Quoted(key)| + 1 + |ws|;
    assert json[vs] == json[vs..][0];
    FirstAt(json, Quoted(key), |pre|);
    ValueStart(json, key, |pre|, vs);
    StringAt(json, vs, v, rest);
  }

  lemma StringAt(json: string, vs: nat, v: string, rest: string)
    requires '"' !in v
    requires vs < |json| && json[vs..] == "\"" + v + "\"" + rest
    ensures ValueAt(json, vs) == v
  {
    var t := json[vs..];
    var e := vs + 1 + |v|;
    forall j | vs + 1 <= j < e ensures json[j] == v[j - vs - 1] {
      assert json[j] == t[j - vs];
    }
    assert json[vs] == t[0];
    assert json[e] == t[1 + |v|];
    Text.FindFromIs(json, '"', vs + 1, e);
    assert json[vs + 1..e] == v;
  }


  /** A literal `true` or `false` reads as itself. */
  lemma BoolValue(pre: string, key: string, ws: string, lit: string, rest: string)
    requires ':' !in key && (lit == "true" || lit == "false")
    requires forall j :: 0 <= j < |pre| ==>
               !Text.OccursAt(pre + Quoted(key) + ":" + ws + lit + rest, Quoted(key), j)
    requires forall j :: 0 <= j < |ws| ==> IsBlank(ws[j])
    ensures GetJsonValue(pre + Quoted(key) + ":" + ws + lit + rest, key) == lit
  {
    var json := pre + Quoted(key) + ":" + ws + lit + rest;
    assert json == pre + Quoted(key) + ":" + ws + (lit + rest);
    Layout(json, pre, Quoted(key), ws, lit + rest);
    var vs := |pre| + |Quoted(key)| + 1 + |ws|;
    assert json[vs] == json[vs..][0];
    FirstAt(json, Quoted(key), |pre|);
    ValueStart(json, key, |pre|, vs);
    LiteralAt(json, vs, lit, rest);
  }

  lemma LiteralAt(json: string, vs: nat, lit: string, rest: string)
    requires lit == "true" || lit == "false"
    requires vs < |json| && json[vs..] == lit + rest
    ensures ValueAt(json, vs) == lit
  {
    assert json[vs..vs + |lit|] == json[vs..][..|lit|] == lit;
    assert json[vs] == lit[0];
    if lit == "false" {
      assert !Text.OccursAt(json, "true", vs);
    }
  }

  /** Any other value is the text up to the next ',', '}' or ']'. */
  lemma OtherValue(pre: string, key: string, ws: string, v: string, stop: char, rest: string)
    requires ':' !in key && IsStop(stop)
    requires forall j :: 0 <= j < |v| ==> !IsStop(v[j])
    requires v != [] && !IsBlank(v[0]) && v[0] != '"' && v[0] != 't' && v[0] != 'f'
    requires forall j :: 0 <= j < |pre| ==>
               !Text.OccursAt(pre + Quoted(key) + ":" + ws + v + [stop] + rest, Quoted(key), j)
    requires forall j :: 0 <= j < |ws| ==> IsBlank(ws[j])
    ensures GetJsonValue(pre + Quoted(key) + ":" + ws + v + [stop] + rest, key) == v
  {
    var json := pre + Quoted(key) + ":" + ws + v + [stop] + rest;
    assert json == pre + Quoted(key) + ":" + ws + (v + [stop] + rest);
    Layout(json, pre, Quoted(key), ws, v + [stop] + rest);
    var vs := |pre| + |Quoted(key)| + 1 + |ws|;
    assert json[vs] == json[vs..][0];
    FirstAt(json, Quoted(key), |pre|);
    ValueStart(json, key, |pre|, vs);
    OtherAt(json, vs, v, stop, rest);
  }

  lemma OtherAt(json: string, vs: nat, v: string, stop: char, rest: string)
    requires IsStop(stop) && forall j :: 0 <= j < |v| ==> !IsStop(v[j])
    requires v != [] && v[0] != '"' && v[0] != 't' && v[0] != 'f'
    requires vs < |json| && json[vs..] == v + [stop] + rest
    ensures ValueAt(json, vs) == v
  {
    forall j | vs <= j < vs + |v| ensures !IsStop(json[j]) {
      assert json[j] == json[vs..][j - vs];
    }
    assert json[vs] == v[0];
    assert json[vs + |v|] == json[vs..][|v|];
    assert FindStop(json, vs) == vs + |v|;
    assert json[vs..vs + |v|] == json[vs..][..|v|];
  }

  /** A number or other value with nothing after it to stop at reads as
      "": `{"expiresIn":60` has no value. */
  lemma UnterminatedValue(pre: string, key: string, ws: string, v: string)
    requires ':' !in key
    requires forall j :: 0 <= j < |v| ==> !IsStop(v[j])
    requires v != [] && !IsBlank(v[0]) && v[0] != '"' && v[0] != 't' && v[0] != 'f'
    requires forall j :: 0 <= j < |pre| ==> !Text.OccursAt(pre + Quoted(key) + ":" + ws + v, Quoted(key), j)
    requires forall j :: 0 <= j < |ws| ==> IsBlank(ws[j])
    ensures GetJsonValue(pre + Quoted(key) + ":" + ws + v, key) == ""
  {
    var json := pre + Quoted(key) + ":" + ws + v;
    Layout(json, pre, Quoted(key), ws, v);
    var vs := |pre| + |Quoted(key)| + 1 + |ws|;
    assert json[vs] == json[vs..][0];
    FirstAt(json, Quoted(key), |pre|);
    ValueStart(json, key, |pre|, vs);
    UnterminatedAt(json, vs, v);
  }

  lemma FirstAt(s: string, pat: string, k: nat)
    requires Text.OccursAt(s, pat, k)
    requires forall j :: 0 <= j < k ==> !Text.OccursAt(s, pat, j)
    ensures Text.FindSub(s, pat, 0) == Some(k)
  {
  }

  lemma UnterminatedAt(json: string, vs: nat, v: string)
    requires forall j :: 0 <= j < |v| ==> !IsStop(v[j])
    requires v != [] && v[0] != '"' && v[0] != 't' && v[0] != 'f'
    requires vs < |json| && json[vs..] == v
    ensures ValueAt(json, vs) == ""
  {
    forall j | vs <= j < |json| ensures !IsStop(json[j]) {
      assert json[j] == json[vs..][j - vs];
    }
    assert json[vs] == v[0];
    assert FindStop(json, vs) == |json|;
  }

  // ---------------------------------------------------------------------
  // Configuration read from the registry

  /** What `validateCheck`, `sendPushNotification` and `checkPushStatus`
      read: the endpoint and the length `readKeyValueInMultiOTPRegistry`
      reports for it, the two keys as `ReadEncryptedRegistryValue` returns
      them, and the two plaintext keys with their reported lengths. */
  datatype Registry = Registry(endpoint: string, endpointLen: int,
                               integrationKeyEnc: string, secretKeyEnc: string,
                               integrationKey: string, integrationKeyLen: int,
                               secretKey: string, secretKeyLen: int)

  /** The decrypted key, or the plaintext key when the decrypted one is
      empty and the plaintext value is longer than one unit. */
  function Key(encrypted: string, plaintext: string, plaintextLen: int): (r: string)
    ensures encrypted != "" ==> r == encrypted
    ensures encrypted == "" && plaintextLen > 1 ==> r == plaintext
    ensures encrypted == "" && plaintextLen <= 1 ==> r == ""
  {
    if encrypted != "" then encrypted else if plaintextLen > 1 then plaintext else ""
  }

  function IntegrationKey(reg: Registry): string
  {
    Key(reg.integrationKeyEnc, reg.integrationKey, reg.integrationKeyLen)
  }

  function SecretKey(reg: Registry): string
  {
    Key(reg.secretKeyEnc, reg.secretKey, reg.secretKeyLen)
  }

  /** The configuration test shared by the three calls. */
  predicate Configured(reg: Registry)
  {
    reg.endpointLen >= 2 && IntegrationKey(reg) != "" && SecretKey(reg) != ""
  }

  /** The response to a request with the registry's endpoint and keys. */
  function Call(reg: Registry, path: string, body: string, verb: string, t: Transport): string
    requires WellFormed(t)
  {
    Exchange(reg.endpoint, path, body, IntegrationKey(reg), SecretKey(reg), verb, t)
  }

  // ---------------------------------------------------------------------
  // Request bodies

  function TotpBody(username: string, otp: string): string
  {
    "{\"externalUserId\":\"" + username + "\",\"code\":\"" + otp + "\"}"
  }

  function PushBody(username: string, hostname: string, clientIp: string): string
  {
    "{\"externalUserId\":\"" + username + "\",\"serviceName\":\"Windows RDP Login\""
    + ",\"deviceInfo\":\"" + hostname + "\"" + ",\"ipAddress\":\"" + clientIp + "\"}"
  }

  /** What `WTSQuerySessionInformationW(..., WTSClientAddress, ...)` gives:
      the address family and the 20 address bytes. */
  datatype ClientAddress = ClientAddress(family: int, address: seq<byte>)

  const AfInet := 2
  const AfInet6 := 23

  function Dotted(a: byte, b: byte, c: byte, d: byte): string
  {
    Text.NatToString(a) + "." + Text.NatToString(b) + "." + Text.NatToString(c) + "."
    + Text.NatToString(d)
  }

  /** The client address sent with a push: bytes 2-5 for `AF_INET`, bytes
      0-3 for family 4, a fixed text for IPv6, "Unknown" when the query
      fails or the family is another, and "Local" for 0.0.0.0. */
  function ClientIp(query: Option<ClientAddress>): (r: string)
    requires query.Some? ==> |query.value.address| == 20
    ensures r != ""
  {
    match query
    case None => "Unknown"
    case Some(a) =>
      var ip :=
        if a.family == AfInet then Dotted(a.address[2], a.address[3], a.address[4], a.address[5])
        else if a.family == 4 then Dotted(a.address[0], a.address[1], a.address[2], a.address[3])
        else if a.family == AfInet6 then "IPv6 Client"
        else "Unknown";
      if ip == "0.0.0.0" then "Local" else ip
  }

  /** A console session (all-zero IPv4 address) is reported as "Local". */
  lemma ZeroAddressIsLocal(address: seq<byte>)
    requires |address| == 20 && address[2] == 0 && address[3] == 0 && address[4] == 0
             && address[5] == 0
    ensures ClientIp(Some(ClientAddress(AfInet, address))) == "Local"
  {
    assert Text.NatToString(0) == "0";
    assert Dotted(0, 0, 0, 0) == "0.0.0.0";
  }

  // ---------------------------------------------------------------------
  // Push status and the poll

  /** What `checkPushStatus` answers for a stored request id. */
  function StatusVerdict(reg: Registry, requestId: string, t: Transport): (r: Hresult)
    requires WellFormed(t)
    ensures Decisive(r) || r == EPending || r == EFail
  {
    if requestId == "" || !Configured(reg) then EFail
    else
      var response := Call(reg, PushStatusPath + requestId, "{}", "GET", t);
      if response == "" then EFail
      else
        var status := GetJsonValue(response, "status");
        if status == "approved" then PiAuthSuccess
        else if status == "denied" || status == "expired" then PiAuthFailure
        else EPending
  }

  /** A check is decisive when it approves or refuses. */
  predicate Decisive(h: Hresult)
  {
    h == PiAuthSuccess || h == PiAuthFailure
  }

  /** How the push loop of `validateCheck` ends: its result, error code
      and the number of status checks made. */
  datatype PushEnd = PushEnd(hr: Hresult, errorCode: int, checks: nat)

  /** The loop from attempt `i` on, given the verdict of each attempt. */
  function PollFrom(verdict: nat -> Hresult, i: nat): (r: PushEnd)
    requires i <= MaxPushAttempts
    ensures i <= r.checks <= MaxPushAttempts
    ensures r.hr == PiAuthSuccess || r.hr == PiAuthFailure
    ensures r.hr == PiAuthSuccess ==> r.errorCode == 0 && r.checks >= 1
                                      && verdict(r.checks - 1) == PiAuthSuccess
    ensures r.hr == PiAuthFailure ==> r.errorCode == 70 || r.errorCode == 99
    decreases MaxPushAttempts - i
  {
    if i == MaxPushAttempts then PushEnd(PiAuthFailure, 70, i)
    else if verdict(i) == PiAuthSuccess then PushEnd(PiAuthSuccess, 0, i + 1)
    else if verdict(i) == PiAuthFailure then PushEnd(PiAuthFailure, 99, i + 1)
    else PollFrom(verdict, i + 1)
  }

  /** Attempt `k`, at or after `i`, approves and none before it from `i`
      on was decisive. */
  predicate FirstApproval(verdict: nat -> Hresult, i: nat, k: nat)
  {
    i <= k < MaxPushAttempts && verdict(k) == PiAuthSuccess
    && forall j :: i <= j < k ==> !Decisive(verdict(j))
  }

  /** No attempt from `i` on within the bound is decisive. */
  predicate NoneDecisive(verdict: nat -> Hresult, i: nat)
  {
    forall j :: i <= j < MaxPushAttempts ==> !Decisive(verdict(j))
  }

  /** The push succeeds exactly when some attempt within the bound
      approves and no earlier one was decisive; a refusal gives code 99
      and running out of attempts code 70. */
  lemma PollOutcome(verdict: nat -> Hresult, i: nat)
    requires i <= MaxPushAttempts
    ensures PollFrom(verdict, i).hr == PiAuthSuccess <==> exists k :: FirstApproval(verdict, i, k)
    ensures PollFrom(verdict, i).errorCode == 70 <==> NoneDecisive(verdict, i)
  {
    PollApproves(verdict, i);
    PollExhausts(verdict, i);
  }

  lemma {:induction false} PollApproves(verdict: nat -> Hresult, i: nat)
    requires i <= MaxPushAttempts
    ensures PollFrom(verdict, i).hr == PiAuthSuccess <==> exists k :: FirstApproval(verdict, i, k)
    decreases MaxPushAttempts - i
  {
    if i < MaxPushAttempts {
      PollStep(verdict, i);
      if verdict(i) == PiAuthSuccess {
        assert FirstApproval(verdict, i, i);
      } else if verdict(i) == PiAuthFailure {
        forall k | i < k ensures !FirstApproval(verdict, i, k) {
          assert Decisive(verdict(i));
        }
      } else {
        PollApproves(verdict, i + 1);
        if k :| FirstApproval(verdict, i, k) {
          assert FirstApproval(verdict, i + 1, k);
        }
        var next := i + 1;
        if k :| FirstApproval(verdict, next, k) {
          assert FirstApproval(verdict, i, k);
        }
      }
    }
  }

  lemma {:induction false} PollExhausts(verdict: nat -> Hresult, i: nat)
    requires i <= MaxPushAttempts
    ensures PollFrom(verdict, i).errorCode == 70 <==> NoneDecisive(verdict, i)
    decreases MaxPushAttempts - i
  {
    if i < MaxPushAttempts {
      PollStep(verdict, i);
      if !Decisive(verdict(i)) {
        PollExhausts(verdict, i + 1);
        assert NoneDecisive(verdict, i) <==> NoneDecisive(verdict, i + 1);
      }
    }
  }

  /** The verdicts of the successive status checks for one request id. */
  function Verdicts(reg: Registry, requestId: string, polls: nat -> Transport): nat -> Hresult
    requires forall i :: WellFormed(polls(i))
  {
    (i: nat) => StatusVerdict(reg, requestId, polls(i))
  }

  lemma PollStep(verdict: nat -> Hresult, i: nat)
    requires i < MaxPushAttempts
    ensures PollFrom(verdict, i)
            == if verdict(i) == PiAuthSuccess then PushEnd(PiAuthSuccess, 0, i + 1)
               else if verdict(i) == PiAuthFailure then PushEnd(PiAuthFailure, 99, i + 1)
               else PollFrom(verdict, i + 1)
  {
  }

  lemma VerdictAt(reg: Registry, requestId: string, polls: nat -> Transport, i: nat)
    requires forall i :: WellFormed(polls(i))
    ensures Verdicts(reg, requestId, polls)(i) == StatusVerdict(reg, requestId, polls(i))
  {
  }

  /** `verdict` is, check by check, the verdict for `requestId`. */
  ghost predicate ReportsVerdicts(reg: Registry, requestId: string, polls: nat -> Transport,
                                  verdict: nat -> Hresult)
  {
    forall i: nat {:trigger StatusVerdict(reg, requestId, polls(i))} ::
      WellFormed(polls(i)) ==> verdict(i) == StatusVerdict(reg, requestId, polls(i))
  }

  /** The verdicts of a poll's checks are what its checks report. */
  lemma VerdictsReport(reg: Registry, requestId: string, polls: nat -> Transport)
    requires forall i :: WellFormed(polls(i))
    ensures ReportsVerdicts(reg, requestId, polls, Verdicts(reg, requestId, polls))
  {
  }

  /** The request id a push answer carries, or "" for none. */
  function SentId(reg: Registry, username: string, hostname: string, clientIp: string,
                  t: Transport): (r: string)
    requires WellFormed(t)
    ensures r != "" ==> Configured(reg)
  {
    if !Configured(reg) then ""
    else
      var response := Call(reg, PushSendPath, PushBody(username, hostname, clientIp), "POST", t);
      if response == "" then "" else GetJsonValue(response, "requestId")
  }

  /** What `validateCheck` returns, with its error code, for a clean user
      name, a code or "push"/"sms", and the transports of its requests:
      `send` for the push or the OTP check, `polls(i)` for the i-th status
      check. */
  function Validate(reg: Registry, username: string, otp: string, hostname: string,
                    clientIp: string, send: Transport, polls: nat -> Transport): (r: (Hresult, int))
    requires WellFormed(send) && forall i :: WellFormed(polls(i))
    ensures r.0 == PiAuthSuccess || r.0 == PiAuthFailure
    ensures r.0 == PiAuthSuccess <==> r.1 == 0
  {
    if !Configured(reg) then (PiAuthFailure, 99)
    else if otp == "push" || otp == "sms" then
      var id := SentId(reg, username, hostname, clientIp, send);
      if id == "" then (PiAuthFailure, 70)
      else
        var e := PollFrom(Verdicts(reg, id, polls), 0);
        (e.hr, e.errorCode)
    else
      var response := Call(reg, TotpVerifyPath, TotpBody(username, otp), "POST", send);
      if response == "" then (PiAuthFailure, 70)
      else if GetJsonValue(response, "valid") == "true" then (PiAuthSuccess, 0)
      else (PiAuthFailure, 99)
  }

  /** Without an endpoint and both keys, `validateCheck` fails with code
      99 whatever the transports would have answered: no request is
      made. */
  lemma UnconfiguredFails(reg: Registry, username: string, otp: string, hostname: string,
                          clientIp: string, send: Transport, polls: nat -> Transport,
                          send2: Transport, polls2: nat -> Transport)
    requires WellFormed(send) && forall i :: WellFormed(polls(i))
    requires WellFormed(send2) && forall i :: WellFormed(polls2(i))
    requires reg.endpointLen < 2 || IntegrationKey(reg) == "" || SecretKey(reg) == ""
    ensures Validate(reg, username, otp, hostname, clientIp, send, polls) == (PiAuthFailure, 99)
    ensures Validate(reg, username, otp, hostname, clientIp, send, polls)
            == Validate(reg, username, otp, hostname, clientIp, send2, polls2)
  {
  }

  /** Where the keys come from. A key missing both encrypted and as a
      plaintext value longer than one unit makes `validateCheck` fail with
      code 99; otherwise every request carries the encrypted integration
      key when there is one, the plaintext one only in its absence, and is
      signed with the secret key chosen the same way. */
  lemma KeyChoice(reg: Registry, username: string, otp: string, hostname: string,
                  clientIp: string, send: Transport, polls: nat -> Transport,
                  path: string, body: string, verb: string)
    requires WellFormed(send) && forall i :: WellFormed(polls(i))
    ensures (reg.integrationKeyEnc == "" && reg.integrationKeyLen <= 1)
            || (reg.secretKeyEnc == "" && reg.secretKeyLen <= 1) ==>
              Validate(reg, username, otp, hostname, clientIp, send, polls) == (PiAuthFailure, 99)
    ensures Configured(reg) ==>
              var q := RequestFor(reg.endpoint, path, body, IntegrationKey(reg), SecretKey(reg),
                                  verb, send);
              var sk := if reg.secretKeyEnc != "" then reg.secretKeyEnc else reg.secretKey;
              && q.headers[1] == ("X-Integration-Key",
                                  if reg.integrationKeyEnc != "" then reg.integrationKeyEnc
                                  else reg.integrationKey)
              && q.headers[2].1 == HmacHex(send.mac, sk, SigningData(send.now, NonceOf(send.draws), body))
  {
  }

  /** The OTP path: an empty answer is code 70, and success comes only
      from a `"valid"` value of `true`. */
  lemma TotpPath(reg: Registry, username: string, otp: string, hostname: string,
                 clientIp: string, send: Transport, polls: nat -> Transport)
    requires WellFormed(send) && forall i :: WellFormed(polls(i))
    requires Configured(reg) && otp != "push" && otp != "sms"
    ensures var response := Call(reg, TotpVerifyPath, TotpBody(username, otp), "POST", send);
            var r := Validate(reg, username, otp, hostname, clientIp, send, polls);
            && (response == "" ==> r == (PiAuthFailure, 70))
            && (r.0 == PiAuthSuccess <==> response != "" && GetJsonValue(response, "valid") == "true")
            && (response != "" && GetJsonValue(response, "valid") != "true" ==> r == (PiAuthFailure, 99))
  {
  }

  /** The push path: a failed send is code 70 with no status check; after
      a send, success needs an approval within 30 checks. */
  lemma PushPath(reg: Registry, username: string, otp: string, hostname: string,
                 clientIp: string, send: Transport, polls: nat -> Transport)
    requires WellFormed(send) && forall i :: WellFormed(polls(i))
    requires Configured(reg) && (otp == "push" || otp == "sms")
    ensures var id := SentId(reg, username, hostname, clientIp, send);
            var r := Validate(reg, username, otp, hostname, clientIp, send, polls);
            && (id == "" ==> r == (PiAuthFailure, 70))
            && (r.0 == PiAuthSuccess <==>
                  id != "" && exists k :: 0 <= k < MaxPushAttempts
                                         && StatusVerdict(reg, id, polls(k)) == PiAuthSuccess
                                         && forall j :: 0 <= j < k ==>
                                              !Decisive(StatusVerdict(reg, id, polls(j))))
  {
    var id := SentId(reg, username, hostname, clientIp, send);
    PushBranch(reg, username, otp, hostname, clientIp, send, polls);
    if id != "" {
      var v := Verdicts(reg, id, polls);
      PollOutcome(v, 0);
      ApprovalOfVerdicts(reg, id, polls);
    }
  }

  /** A first approval among the verdicts is a first approval among the
      status checks. */
  lemma ApprovalOfVerdicts(reg: Registry, id: string, polls: nat -> Transport)
    requires forall i :: WellFormed(polls(i))
    ensures (exists k :: FirstApproval(Verdicts(reg, id, polls), 0, k)) <==>
            exists k :: 0 <= k < MaxPushAttempts
                        && StatusVerdict(reg, id, polls(k)) == PiAuthSuccess
                        && forall j :: 0 <= j < k ==> !Decisive(StatusVerdict(reg, id, polls(j)))
  {
    var v := Verdicts(reg, id, polls);
    forall k ensures v(k) == StatusVerdict(reg, id, polls(k)) {
      VerdictAt(reg, id, polls, k);
    }
    if k: nat :| FirstApproval(v, 0, k) {
      assert 0 <= k < MaxPushAttempts && StatusVerdict(reg, id, polls(k)) == PiAuthSuccess;
    }
    if k: nat :| (k < MaxPushAttempts && StatusVerdict(reg, id, polls(k)) == PiAuthSuccess
                  && forall j :: 0 <= j < k ==> !Decisive(StatusVerdict(reg, id, polls(j)))) {
      assert FirstApproval(v, 0, k);
    }
  }

  /** "push" and "sms" send a push and poll for the id it returns. */
  lemma PushBranch(reg: Registry, username: string, otp: string, hostname: string,
                   clientIp: string, send: Transport, polls: nat -> Transport)
    requires WellFormed(send) && forall i :: WellFormed(polls(i))
    requires Configured(reg) && (otp == "push" || otp == "sms")
    ensures var id := SentId(reg, username, hostname, clientIp, send);
            var r := Validate(reg, username, otp, hostname, clientIp, send, polls);
            && (id == "" ==> r == (PiAuthFailure, 70))
            && (id != "" ==> r.0 == PollFrom(Verdicts(reg, id, polls), 0).hr)
  {
  }

  /** `userTokenType`: a push token when the endpoint and both plaintext
      key values are longer than one unit, a token otherwise. */
  function UserTokenType(reg: Registry): (r: int)
    ensures r == IsPushToken || r == IsWithToken
    ensures r == IsPushToken <==>
              reg.endpointLen >= 2 && reg.integrationKeyLen >= 2 && reg.secretKeyLen >= 2
  {
    if reg.endpointLen < 2 || reg.integrationKeyLen < 2 || reg.secretKeyLen < 2 then IsWithToken
    else IsPushToken
  }

  /** The token type reads only the plaintext keys: with the keys stored
      encrypted alone, `validateCheck` is configured but the user is
      reported as holding an ordinary token. */
  lemma EncryptedOnlyIsWithToken(reg: Registry)
    requires reg.endpointLen >= 2 && reg.integrationKeyEnc != "" && reg.secretKeyEnc != ""
    requires reg.integrationKeyLen <= 1
    ensures Configured(reg) && UserTokenType(reg) == IsWithToken
  {
  }

  // ---------------------------------------------------------------------
  // The client and its process-wide push state

  class Client {
    var lastPushRequestId: string
    var lastPushUsername: string

    constructor ()
      ensures lastPushRequestId == "" && lastPushUsername == ""
    {
      lastPushRequestId := "";
      lastPushUsername := "";
    }

    /** The request shared by the three calls. */
    method ApiRequest(reg: Registry, path: string, body: string, verb: string, t: Transport)
      returns (response: string)
      requires WellFormed(t)
      ensures response == Call(reg, path, body, verb, t)
    {
      var nonce := GenerateNonce(t.draws);
      var signature := HmacHex(t.mac, SecretKey(reg), SigningData(t.now, nonce, body));
      var request := Request(reg.endpoint, verb, path,
                             Headers(IntegrationKey(reg), signature, t.now, nonce), body);
      response := t.perform(request);
    }

    /** `sendPushNotification`: on success the request id and user are
        stored for the poll. */
    method SendPushNotification(reg: Registry, username: string, hostname: string,
                                query: Option<ClientAddress>, t: Transport)
      returns (hr: Hresult)
      requires WellFormed(t)
      requires query.Some? ==> |query.value.address| == 20
      modifies this
      ensures var id := SentId(reg, username, hostname, ClientIp(query), t);
              && (hr == SOk <==> id != "")
              && (hr == SOk || hr == EFail)
              && lastPushRequestId == (if id != "" then id else old(lastPushRequestId))
              && lastPushUsername == (if id != "" then username else old(lastPushUsername))
    {
      if reg.endpointLen < 2 || IntegrationKey(reg) == "" || SecretKey(reg) == "" {
        return EFail;
      }
      var clientIp := ClientIp(query);
      var response := ApiRequest(reg, PushSendPath, PushBody(username, hostname, clientIp),
                                 "POST", t);
      if response == "" {
        return EFail;
      }
      var requestId := GetJsonValue(response, "requestId");
      if requestId == "" {
        return EFail;
      }
      lastPushRequestId := requestId;
      lastPushUsername := username;
      return SOk;
    }

    /** `checkPushStatus`: a decisive answer clears the stored id. */
    method CheckPushStatus(reg: Registry, t: Transport) returns (hr: Hresult)
      requires WellFormed(t)
      modifies this
      ensures hr == StatusVerdict(reg, old(lastPushRequestId), t)
      ensures old(lastPushRequestId) == "" ==> hr == EFail
      ensures lastPushRequestId == (if Decisive(hr) then "" else old(lastPushRequestId))
      ensures lastPushUsername == old(lastPushUsername)
    {
      if lastPushRequestId == "" {
        return EFail;
      }
      if reg.endpointLen < 2 || IntegrationKey(reg) == "" || SecretKey(reg) == "" {
        return EFail;
      }
      var response := ApiRequest(reg, PushStatusPath + lastPushRequestId, "{}", "GET", t);
      if response == "" {
        return EFail;
      }
      var status := GetJsonValue(response, "status");
      if status == "approved" {
        lastPushRequestId := "";
        return PiAuthSuccess;
      } else if status == "denied" {
        lastPushRequestId := "";
        return PiAuthFailure;
      } else if status == "expired" {
        lastPushRequestId := "";
        return PiAuthFailure;
      }
      return EPending;
    }

    /** One status check of the poll: the verdict for the stored id, the
        id kept while the answer is not decisive. */
    method PollAttempt(reg: Registry, polls: nat -> Transport, attempt: nat,
                       ghost verdict: nat -> Hresult)
      returns (status: Hresult)
      requires forall i :: WellFormed(polls(i))
      requires ReportsVerdicts(reg, lastPushRequestId, polls, verdict)
      modifies this
      ensures status == verdict(attempt)
      ensures lastPushRequestId == (if Decisive(status) then "" else old(lastPushRequestId))
      ensures lastPushUsername == old(lastPushUsername)
    {
      status := CheckPushStatus(reg, polls(attempt));
    }

    /** The poll of `validateCheck`: up to 30 checks, the first decisive
        one ending it. */
    method PollPush(reg: Registry, polls: nat -> Transport, ghost verdict: nat -> Hresult)
      returns (hr: Hresult, errorCode: int)
      requires forall i :: WellFormed(polls(i))
      requires ReportsVerdicts(reg, lastPushRequestId, polls, verdict)
      modifies this
      ensures var e := PollFrom(verdict, 0);
              hr == e.hr && errorCode == e.errorCode
      ensures lastPushRequestId == (if errorCode == 70 then old(lastPushRequestId) else "")
      ensures lastPushUsername == old(lastPushUsername)
    {
      var attempt := 0;
      while attempt < MaxPushAttempts
        invariant 0 <= attempt <= MaxPushAttempts
        invariant lastPushRequestId == old(lastPushRequestId)
        invariant lastPushUsername == old(lastPushUsername)
        invariant PollFrom(verdict, attempt) == PollFrom(verdict, 0)
        decreases MaxPushAttempts - attempt
      {
        var status := PollAttempt(reg, polls, attempt, verdict);
        PollStep(verdict, attempt);
        if status == PiAuthSuccess {
          return PiAuthSuccess, 0;
        } else if status == PiAuthFailure {
          return PiAuthFailure, 99;
        }
        attempt := attempt + 1;
      }
      return PiAuthFailure, 70;
    }

    /** `validateCheck` for a user name already cleaned of its domain. */
    method ValidateCheck(reg: Registry, username: string, otp: string, hostname: string,
                         query: Option<ClientAddress>, send: Transport, polls: nat -> Transport)
      returns (hr: Hresult, errorCode: int)
      requires WellFormed(send) && forall i :: WellFormed(polls(i))
      requires query.Some? ==> |query.value.address| == 20
      modifies this
      ensures (hr, errorCode) == Validate(reg, username, otp, hostname, ClientIp(query), send, polls)
      ensures var id := SentId(reg, username, hostname, ClientIp(query), send);
              var pushed := (otp == "push" || otp == "sms") && id != "";
              && lastPushRequestId == (if !pushed then old(lastPushRequestId)
                                       else if errorCode == 70 then id else "")
              && lastPushUsername == (if pushed then username else old(lastPushUsername))
    {
      errorCode := 0;
      if reg.endpointLen < 2 || IntegrationKey(reg) == "" || SecretKey(reg) == "" {
        return PiAuthFailure, 99;
      }
      if otp == "push" || otp == "sms" {
        var pushResult := SendPushNotification(reg, username, hostname, query, send);
        if pushResult != SOk {
          return PiAuthFailure, 70;
        }
        VerdictsReport(reg, lastPushRequestId, polls);
        hr, errorCode := PollPush(reg, polls, Verdicts(reg, lastPushRequestId, polls));
        return;
      }
      var response := ApiRequest(reg, TotpVerifyPath, TotpBody(username, otp), "POST", send);
      if response == "" {
        return PiAuthFailure, 70;
      }
      var valid := GetJsonValue(response, "valid");
      if valid == "true" {
        return PiAuthSuccess, 0;
      }
      return PiAuthFailure, 99;
    }
  }
}
