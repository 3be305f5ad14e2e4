/** The Windows client class `WorldPostaAPI`: user-name normalisation,
    the endpoint split, signed requests, OTP verification, push sending,
    status checks, the poll loop and the auth-method query.

    WinHTTP is a `Transport` parameter: the clock reading of the request
    and what `perform` returns for the request built (the stage that
    failed, or the body read). BCrypt's HMAC-SHA256 is its `mac` function,
    and nlohmann's `json::parse` the `Parser` function (`None` for a parse
    error). */
module WorldPostaApi {
  import Text
  import Hex
  import ProxySigning
  import opened Wrappers

  type byte = Hex.byte

  // Status codes (WorldPostaAPI.h).
  const AuthSuccess := 0x00
  const AuthFailure := 0x01
  const AuthError := 0x02
  const TriggeredPush := 0x03
  const PushApproved := 0x04
  const PushDenied := 0x05
  const PushExpired := 0x06
  const PushPending := 0x07
  const ServerUnavailable := 0x10
  const SetupError := 0x11
  const UserNotFound := 0x12

  const TotpVerifyPath := "/v1/totp/verify"
  const PushSendPath := "/v1/push/send"
  const PushStatusPath := "/v1/push/status/"
  const RdpAuthPath := "/v1/rdp/auth"

  const HttpsPort := 443
  const DefaultExpiresIn := 60

  // ---------------------------------------------------------------------
  // User names

  /** The text after the first '\', or all of it. */
  function AfterDomain(username: string): (r: string)
    ensures |r| <= |username|
  {
    if '\\' in username then username[Text.Find(username, '\\') + 1..] else username
  }

  /** `normalizeUsername`: drop through the first '\', then from the first
      '@', then lower-case. */
  function NormalizeUsername(username: string): (r: string)
    ensures '@' !in r
    ensures forall i :: 0 <= i < |r| ==> !Text.IsUpper(r[i])
  {
    var local := Text.Before(AfterDomain(username), '@');
    var r := Text.Lower(local);
    assert forall i :: 0 <= i < |r| ==> r[i] != '@' by {
      forall i | 0 <= i < |r| ensures r[i] != '@' {
        assert local[i] != '@';
      }
    }
    r
  }

  lemma AfterDomainOf(domain: string, rest: string)
    requires '\\' !in domain
    ensures AfterDomain(domain + "\\" + rest) == rest
  {
    var u := domain + "\\" + rest;
    Text.FindAppend(domain, "\\" + rest, '\\');
    assert u[|domain|] == '\\';
    assert u[|domain| + 1..] == rest;
  }

  /** A domain part before the first '\' is dropped. */
  lemma NormalizeDomain(domain: string, rest: string)
    requires '\\' !in domain
    ensures NormalizeUsername(domain + "\\" + rest) == Text.Lower(Text.Before(rest, '@'))
  {
    AfterDomainOf(domain, rest);
  }

  /** A realm part after the first '@' is dropped. */
  lemma NormalizeRealm(user: string, realm: string)
    requires '\\' !in user && '@' !in user && '\\' !in realm
    ensures NormalizeUsername(user + "@" + realm) == Text.Lower(user)
  {
    var full := user + "@" + realm;
    assert '\\' !in full;
    assert AfterDomain(full) == full;
    Text.BeforeAppend(user, "@" + realm, '@');
    assert full == user + ("@" + realm);
    assert Text.Before("@" + realm, '@') == [];
  }

  /** A bare user name is only lower-cased. */
  lemma NormalizePlain(user: string)
    requires '\\' !in user && '@' !in user
    ensures NormalizeUsername(user) == Text.Lower(user)
  {
    assert AfterDomain(user) == user;
    assert Text.Before(user, '@') == user;
  }

  /** Normalising twice changes nothing when the name has at most one
      '\'. */
  lemma NormalizeIdempotent(username: string)
    requires forall i, j :: 0 <= i < j < |username| && username[i] == '\\' ==> username[j] != '\\'
    ensures NormalizeUsername(NormalizeUsername(username)) == NormalizeUsername(username)
  {
    var afterDomain := AfterDomain(username);
    assert '\\' !in afterDomain;
    var local := Text.Before(afterDomain, '@');
    assert '\\' !in local;
    var r := NormalizeUsername(username);
    assert r == Text.Lower(local);
    assert '\\' !in r by {
      forall i | 0 <= i < |r| ensures r[i] != '\\' {
        assert local[i] != '\\';
      }
    }
    assert Text.Before(r, '@') == r;
    assert Text.Lower(r) == r;
  }

  /** With two '\', the second survives a pass: normalising again drops
      another domain part. */
  lemma NormalizeSecondBackslash()
    ensures NormalizeUsername("a\\b\\c") == "b\\c"
    ensures NormalizeUsername(NormalizeUsername("a\\b\\c")) == "c"
  {
    var u := "a\\b\\c";
    assert u[1] == '\\' && u[0] != '\\';
    assert Text.Find(u, '\\') == 1;
    assert u[2..] == "b\\c";
    assert Text.Before("b\\c", '@') == "b\\c";
    assert Text.Lower("b\\c") == "b\\c";
    var v := "b\\c";
    assert v[1] == '\\' && v[0] != '\\';
    assert Text.Find(v, '\\') == 1;
    assert v[2..] == "c";
    assert Text.Before("c", '@') == "c";
    assert Text.Lower("c") == "c";
  }

  // ---------------------------------------------------------------------
  // The endpoint

  /** C's `isspace` characters, which `std::stoi` skips. */
  predicate IsSpace(c: char)
  {
    c == ' ' || c == '\t' || c == '\n' || c == '\U{B}' || c == '\U{C}' || c == '\r'
  }

  /** The index of the first character at or after `i` that is not a
      space. */
  function SkipSpaces(s: string, i: nat): (r: nat)
    requires i <= |s|
    ensures i <= r <= |s|
    decreases |s| - i
  {
    if i == |s| || !IsSpace(s[i]) then i else SkipSpaces(s, i + 1)
  }

  /** The end of the run of digits starting at `i`. */
  function DigitsEnd(s: string, i: nat): (r: nat)
    requires i <= |s|
    ensures i <= r <= |s|
    decreases |s| - i
  {
    if i == |s| || !Text.IsDigit(s[i]) then i else DigitsEnd(s, i + 1)
  }

  /** The value of a string of decimal digits. */
  function DecimalValue(d: string): int
  {
    if d == [] then 0 else 10 * DecimalValue(d[..|d| - 1]) + (d[|d| - 1] as int - '0' as int)
  }

  const IntMin := -0x8000_0000
  const IntMax := 0x7FFF_FFFF

  /** `std::stoi`: spaces, an optional sign and at least one digit; `None`
      where it throws (no digits, or a value outside `int`). */
  function Stoi(s: string): (r: Option<int>)
    ensures r.Some? ==> IntMin <= r.value <= IntMax
  {
    var i := SkipSpaces(s, 0);
    var negative := i < |s| && s[i] == '-';
    var start := if i < |s| && (s[i] == '-' || s[i] == '+') then i + 1 else i;
    var e := DigitsEnd(s, start);
    if e == start then None
    else
      var magnitude := DecimalValue(s[start..e]);
      var v := if negative then -magnitude else magnitude;
      if IntMin <= v <= IntMax then Some(v) else None
  }

  /** A run of digits reaching the end of the text. */
  lemma {:induction false} DigitsToEnd(s: string, i: nat)
    requires i <= |s|
    requires forall j :: i <= j < |s| ==> Text.IsDigit(s[j])
    ensures DigitsEnd(s, i) == |s|
    decreases |s| - i
  {
    if i < |s| {
      DigitsToEnd(s, i + 1);
    }
  }

  /** `DecimalValue` reads back `NatToString`. */
  lemma {:induction false} DecimalOfNat(n: nat)
    ensures DecimalValue(Text.NatToString(n)) == n
    decreases n
  {
    if n >= 10 {
      DecimalOfNat(n / 10);
      var s := Text.NatToString(n);
      assert s[..|s| - 1] == Text.NatToString(n / 10);
    }
  }

  /** A number written in decimal parses back to itself. */
  lemma StoiOfNat(n: nat)
    requires n <= IntMax
    ensures Stoi(Text.NatToString(n)) == Some(n)
  {
    var s := Text.NatToString(n);
    DecimalOfNat(n);
    assert !IsSpace(s[0]) && s[0] != '-' && s[0] != '+';
    assert SkipSpaces(s, 0) == 0;
    DigitsToEnd(s, 0);
    assert s[0..|s|] == s;
  }

  /** Text with no digit does not parse. */
  lemma StoiNeedsDigit(s: string)
    requires forall j :: 0 <= j < |s| ==> !Text.IsDigit(s[j])
    ensures Stoi(s) == None
  {
  }

  /** The index just past the first "://" at or after `i`. */
  function SchemeEnd(url: string, i: nat): (r: Option<nat>)
    ensures r.Some? ==> i + 3 <= r.value <= |url|
    decreases |url| - i
  {
    if i + 3 > |url| then None
    else if url[i] == ':' && url[i + 1] == '/' && url[i + 2] == '/' then Some(i + 3)
    else SchemeEnd(url, i + 1)
  }

  /** The text after the first "://", or all of it. */
  function AfterScheme(url: string): string
  {
    match SchemeEnd(url, 0)
    case Some(k) => url[k..]
    case None => url
  }

  /** The index of the first `c` at or after `i`, or `|s|`. */
  function IndexOf(s: string, c: char, i: nat): (r: nat)
    requires i <= |s|
    ensures i <= r <= |s|
    decreases |s| - i
  {
    if i == |s| || s[i] == c then i else IndexOf(s, c, i + 1)
  }

  /** `IndexOf` finds the first `c`. */
  lemma {:induction false} IndexOfFirst(s: string, c: char, i: nat)
    requires i <= |s|
    ensures IndexOf(s, c, i) < |s| ==> s[IndexOf(s, c, i)] == c
    ensures forall j :: i <= j < IndexOf(s, c, i) ==> s[j] != c
    decreases |s| - i
  {
    if i < |s| && s[i] != c {
      IndexOfFirst(s, c, i + 1);
    }
  }

  /** Past a stretch free of `c`, the search goes on. */
  lemma {:induction false} IndexOfSkips(s: string, c: char, i: nat, k: nat)
    requires i <= k <= |s|
    requires forall j :: i <= j < k ==> s[j] != c
    ensures IndexOf(s, c, i) == IndexOf(s, c, k)
    decreases k - i
  {
    if i < k {
      IndexOfSkips(s, c, i + 1, k);
    }
  }

  /** The host and port part of the endpoint: after the scheme, up to
      the first '/'. */
  function HostPart(endpoint: string): string
  {
    var rest := AfterScheme(endpoint);
    rest[..IndexOf(rest, '/', 0)]
  }

  /** A ':' in the host part starts the port (`std::stoi`, then the cast
      to the 16-bit `INTERNET_PORT`); the default is 443. `None` where
      `std::stoi` throws. */
  function SplitHostPort(hostPort: string): Option<(string, int)>
  {
    var colon := IndexOf(hostPort, ':', 0);
    if colon == |hostPort| then Some((hostPort, HttpsPort))
    else
      match Stoi(hostPort[colon + 1..])
      case None => None
      case Some(p) => Some((hostPort[..colon], p % 0x1_0000))
  }

  /** The URL split in `makeRequest`. */
  function SplitUrl(endpoint: string): Option<(string, int)>
  {
    SplitHostPort(HostPart(endpoint))
  }

  /** The host holds no '/' or ':', and the port fits 16 bits. */
  lemma SplitUrlShape(endpoint: string)
    ensures var r := SplitUrl(endpoint);
            r.Some? ==> '/' !in r.value.0 && ':' !in r.value.0 && 0 <= r.value.1 < 0x1_0000
  {
    var rest := AfterScheme(endpoint);
    IndexOfFirst(rest, '/', 0);
    var hostPort := HostPart(endpoint);
    IndexOfFirst(hostPort, ':', 0);
    var colon := IndexOf(hostPort, ':', 0);
    assert forall j :: 0 <= j < |hostPort| ==> hostPort[j] != '/';
    assert forall j :: 0 <= j < colon ==> hostPort[..colon][j] != ':';
  }

  /** "https://" is found where it starts. */
  lemma SchemeAt(url: string)
    requires |url| >= 8 && url[..8] == "https://"
    ensures AfterScheme(url) == url[8..]
  {
    assert url[0] == 'h' && url[1] == 't' && url[2] == 't' && url[3] == 'p' && url[4] == 's';
    assert url[5] == ':' && url[6] == '/' && url[7] == '/';
    assert SchemeEnd(url, 5) == Some(8);
    assert SchemeEnd(url, 4) == Some(8);
    assert SchemeEnd(url, 3) == Some(8);
    assert SchemeEnd(url, 2) == Some(8);
    assert SchemeEnd(url, 1) == Some(8);
    assert SchemeEnd(url, 0) == Some(8);
  }

  /** The host part of an https URL is what precedes its path. */
  lemma HostPartHttps(hostPort: string, path: string)
    requires '/' !in hostPort
    requires path == [] || path[0] == '/'
    ensures HostPart("https://" + hostPort + path) == hostPort
  {
    var url := "https://" + hostPort + path;
    assert url[..8] == "https://";
    SchemeAt(url);
    var rest := url[8..];
    assert rest == hostPort + path;
    assert forall j :: 0 <= j < |hostPort| ==> rest[j] != '/';
    IndexOfSkips(rest, '/', 0, |hostPort|);
    assert rest[..|hostPort|] == hostPort;
  }

  /** An endpoint with no port names its host and port 443. */
  lemma DefaultPort(host: string, path: string)
    requires ':' !in host && '/' !in host
    requires path == [] || path[0] == '/'
    ensures SplitUrl("https://" + host + path) == Some((host, HttpsPort))
  {
    HostPartHttps(host, path);
    IndexOfSkips(host, ':', 0, |host|);
  }

  /** An explicit port is read as written. */
  lemma ExplicitPort(host: string, port: nat, path: string)
    requires ':' !in host && '/' !in host && port < 0x1_0000
    requires path == [] || path[0] == '/'
    ensures SplitUrl("https://" + host + ":" + Text.NatToString(port) + path) == Some((host, port))
  {
    var digits := Text.NatToString(port);
    var hostPort := host + ":" + digits;
    assert '/' !in hostPort by {
      forall j | 0 <= j < |hostPort| ensures hostPort[j] != '/' {
        if j > |host| { assert hostPort[j] == digits[j - |host| - 1]; }
      }
    }
    assert "https://" + host + ":" + digits + path == "https://" + hostPort + path;
    HostPartHttps(hostPort, path);
    PortOf(host, port);
  }

  lemma PortOf(host: string, port: nat)
    requires ':' !in host && port < 0x1_0000
    ensures SplitHostPort(host + ":" + Text.NatToString(port)) == Some((host, port))
  {
    var digits := Text.NatToString(port);
    var hostPort := host + ":" + digits;
    assert forall j :: 0 <= j < |host| ==> hostPort[j] != ':';
    IndexOfSkips(hostPort, ':', 0, |host|);
    assert hostPort[|host|] == ':';
    assert IndexOf(hostPort, ':', 0) == |host|;
    assert hostPort[|host| + 1..] == digits;
    assert hostPort[..|host|] == host;
    StoiOfNat(port);
    assert Stoi(hostPort[|host| + 1..]) == Some(port);
    PortFits(port);
  }

  /** A port below 2^16 survives the INTERNET_PORT cast. */
  lemma PortFits(port: nat)
    requires port < 0x1_0000
    ensures port % 0x1_0000 == port
  {
  }

  // ---------------------------------------------------------------------
  // JSON

  /** A parsed JSON value; numbers are integers. */
  datatype Json = JNull | JBool(b: bool) | JNumber(n: int) | JString(s: string)
                | JArray(items: seq<Json>) | JObject(fields: map<string, Json>)

  /** `json::parse`; `None` is a parse error. */
  type Parser = string -> Option<Json>

  /** `j.contains(key)` and then `j[key]`; a value that is not an object
      contains nothing. */
  function Member(j: Json, key: string): (r: Option<Json>)
    ensures r.Some? <==> j.JObject? && key in j.fields
    ensures r.Some? ==> r.value == j.fields[key]
  {
    if j.JObject? && key in j.fields then Some(j.fields[key]) else None
  }

  /** A 32-bit `int` holding `n` after wrap-around. */
  function Int32(n: int): (r: int)
    ensures IntMin <= r <= IntMax
    ensures IntMin <= n <= IntMax ==> r == n
    ensures (r - n) % 0x1_0000_0000 == 0
  {
    (n - IntMin) % 0x1_0000_0000 + IntMin
  }

  /** `get<int>()`: numbers and booleans convert, anything else throws. */
  function AsInt(j: Json): (r: Option<int>)
    ensures r.Some? <==> j.JNumber? || j.JBool?
    ensures j.JNumber? && IntMin <= j.n <= IntMax ==> r == Some(j.n)
  {
    match j
    case JNumber(n) => Some(Int32(n))
    case JBool(b) => Some(if b then 1 else 0)
    case _ => None
  }

  /** The escaping of `json::dump` for one character. */
  function EscapeChar(c: char): (r: string)
    ensures |r| >= 1
    ensures r == [c] <==> c != '"' && c != '\\' && c >= ' '
  {
    if c == '"' then "\\\""
    else if c == '\\' then "\\\\"
    else if c == '\U{8}' then "\\b"
    else if c == '\U{C}' then "\\f"
    else if c == '\n' then "\\n"
    else if c == '\r' then "\\r"
    else if c == '\t' then "\\t"
    else if c < ' ' then "\\u00" + [Hex.Digit(c as int / 16), Hex.Digit(c as int % 16)]
    else [c]
  }

  function Escape(s: string): (r: string)
    ensures |r| >= |s|
  {
    if s == [] then [] else EscapeChar(s[0]) + Escape(s[1..])
  }

  /** Text with no quote, backslash or control character. */
  predicate Plain(s: string)
  {
    forall i :: 0 <= i < |s| ==> s[i] != '"' && s[i] != '\\' && s[i] >= ' '
  }

  /** Plain text is dumped as it is, and anything else is not. */
  lemma {:induction false} EscapePlain(s: string)
    ensures Escape(s) == s <==> Plain(s)
  {
    if s != [] {
      EscapePlain(s[1..]);
      assert Escape(s) == EscapeChar(s[0]) + Escape(s[1..]);
      if EscapeChar(s[0]) == [s[0]] {
        assert Escape(s) == s <==> Escape(s[1..]) == s[1..];
      } else {
        assert |Escape(s)| > |s|;
      }
    }
  }

  /** `json::dump` of an object of strings; the fields come in the key
      order of nlohmann's `std::map`. */
  function Dump(fields: seq<(string, string)>): (r: string)
    ensures |r| >= 2 && r[0] == '{' && r[|r| - 1] == '}'
  {
    "{" + Members(fields) + "}"
  }

  function Members(fields: seq<(string, string)>): string
  {
    if fields == [] then ""
    else
      var m := Field(Escape(fields[0].0), Escape(fields[0].1));
      if |fields| == 1 then m else m + "," + Members(fields[1..])
  }

  /** One dumped member, `"key":"value"`. */
  function Field(key: string, value: string): string
  {
    "\"" + key + "\":\"" + value + "\""
  }

  /** The body `verifyTOTP` posts. */
  function TotpBody(username: string, code: string): string
  {
    Dump([("code", code), ("externalUserId", NormalizeUsername(username))])
  }

  /** The body `sendPush` posts. */
  function PushBody(username: string, hostname: string): string
  {
    Dump([("deviceInfo", hostname + " (Windows)"), ("externalUserId", NormalizeUsername(username)),
          ("loginType", "rdp"), ("serviceName", "Windows RDP Login")])
  }

  /** The body `getAuthMethods` posts. */
  function AuthMethodsBody(username: string, hostname: string): string
  {
    Dump([("externalUserId", NormalizeUsername(username)), ("hostname", hostname), ("loginType", "rdp")])
  }

  /** Two plain fields are dumped as they are. */
  lemma DumpPlainPair(k1: string, v1: string, k2: string, v2: string)
    requires Plain(k1) && Plain(v1) && Plain(k2) && Plain(v2)
    ensures Dump([(k1, v1), (k2, v2)]) == "{" + Field(k1, v1) + "," + Field(k2, v2) + "}"
  {
    EscapePlain(k1);
    EscapePlain(v1);
    EscapePlain(k2);
    EscapePlain(v2);
    var fields := [(k1, v1), (k2, v2)];
    assert fields[1..] == [(k2, v2)];
    assert Members([(k2, v2)]) == Field(k2, v2);
    assert Members(fields) == Field(k1, v1) + "," + Field(k2, v2);
  }

  /** The OTP body on the wire, for plain values. */
  lemma TotpBodyLayout(username: string, code: string)
    requires Plain(code) && Plain(NormalizeUsername(username))
    ensures TotpBody(username, code) ==
              "{" + Field("code", code) + "," + Field("externalUserId", NormalizeUsername(username)) + "}"
  {
    assert Plain("code");
    assert Plain("externalUserId");
    DumpPlainPair("code", code, "externalUserId", NormalizeUsername(username));
  }

  // ---------------------------------------------------------------------
  // Requests

  /** BCrypt's HMAC-SHA256 under a key; `None` when a BCrypt call fails. */
  type Bcrypt = (string, string) -> Option<seq<byte>>

  datatype Config = Config(apiEndpoint: string, integrationKey: string, secretKey: string,
                           timeout: int, pushEnabled: bool, totpEnabled: bool)

  /** `WorldPostaConfig`'s defaults. */
  const DefaultConfig := Config("https://api.worldposta.com", "", "", 60, true, true)

  datatype Request = Request(host: string, port: int, verb: string, path: string,
                             headers: seq<(string, string)>, body: string)

  /** Where a WinHTTP exchange stopped, or the body it read. */
  datatype Received = SessionFailed | ConnectFailed | OpenFailed | SendFailed | ReceiveFailed
                    | Body(text: string)

  datatype Transport = Transport(now: int, mac: Bcrypt, perform: Request -> Received)

  /** The message signed: timestamp and body, with no nonce. */
  function SigningData(timestamp: int, body: string): (r: string)
    ensures r == ProxySigning.SigningString(timestamp, "", body)
  {
    Text.IntToString(timestamp) + body
  }

  /** `generateSignature`: the hex digest, or "" when BCrypt fails. */
  function Signature(mac: Bcrypt, secretKey: string, timestamp: int, body: string): (r: string)
    ensures Hex.IsHex(r) && |r| % 2 == 0
    ensures mac(secretKey, SigningData(timestamp, body)).None? ==> r == ""
    ensures mac(secretKey, SigningData(timestamp, body)).Some? ==>
              Hex.Decode(r) == mac(secretKey, SigningData(timestamp, body)).value
  {
    match mac(secretKey, SigningData(timestamp, body))
    case None => ""
    case Some(digest) => Hex.DecodeEncode(digest); Hex.Encode(digest)
  }

  /** The four headers `makeRequest` sends. */
  function Headers(c: Config, signature: string, timestamp: int): seq<(string, string)>
  {
    [("Content-Type", "application/json"),
     ("X-Integration-Key", c.integrationKey),
     ("X-Signature", signature),
     ("X-Timestamp", Text.IntToString(timestamp))]
  }

  /** The request `makeRequest(verb, path, body)` sends: to the endpoint's
      host and port, at `path` alone (the endpoint's own path is
      dropped). */
  function RequestFor(c: Config, verb: string, path: string, body: string, t: Transport): Request
    requires SplitUrl(c.apiEndpoint).Some?
  {
    var (host, port) := SplitUrl(c.apiEndpoint).value;
    Request(host, port, verb, path, Headers(c, Signature(t.mac, c.secretKey, t.now, body), t.now), body)
  }

  /** The headers carry the signed timestamp and no nonce; the signature
      is the one the proxy computes for an empty nonce. */
  lemma SignedWithoutNonce(c: Config, verb: string, path: string, body: string, t: Transport,
                           mac: ProxySigning.Mac)
    requires SplitUrl(c.apiEndpoint).Some?
    requires forall k, m :: t.mac(k, m) == Some(mac(k, m))
    ensures var h := RequestFor(c, verb, path, body, t).headers;
            && |h| == 4
            && (forall i :: 0 <= i < |h| ==> h[i].0 != "X-Nonce")
            && h[1].1 == c.integrationKey
            && h[2].1 == ProxySigning.GenerateSignature(mac, c.secretKey, t.now, "", body)
            && h[3].1 == Text.IntToString(t.now)
  {
    assert t.mac(c.secretKey, SigningData(t.now, body)) == Some(mac(c.secretKey, SigningData(t.now, body)));
  }

  /** What `makeRequest` returns. */
  function ResponseOf(r: Received): (s: string)
    ensures !r.Body? ==> s == ""
  {
    if r.Body? then r.text else ""
  }

  /** `_lastError` after `makeRequest`. */
  function ErrorAfter(lastError: int, r: Received): (e: int)
    ensures r.Body? ==> e == lastError
    ensures !r.Body? ==> e == SetupError || e == ServerUnavailable
  {
    match r
    case SessionFailed => SetupError
    case ConnectFailed => ServerUnavailable
    case OpenFailed => SetupError
    case SendFailed => ServerUnavailable
    case ReceiveFailed => ServerUnavailable
    case Body(_) => lastError
  }

  /** `_lastErrorMessage` after `makeRequest`. */
  function MessageAfter(message: string, r: Received): string
  {
    match r
    case SessionFailed => "Failed to initialize HTTP"
    case ConnectFailed => "Failed to connect"
    case _ => message
  }

  /** The codes `_lastError` is ever given. */
  predicate IsErrorCode(e: int)
  {
    e == AuthSuccess || e == AuthError || e == ServerUnavailable || e == SetupError
  }

  // ---------------------------------------------------------------------
  // Answers

  /** `verifyTOTP` for a non-empty response: "valid" must be a boolean and
      "message" a string, or nlohmann throws. */
  function TotpAnswer(j: Option<Json>): (hr: int)
    ensures hr == AuthSuccess || hr == AuthFailure || hr == AuthError
  {
    if j.None? then AuthError
    else
      var valid := Member(j.value, "valid");
      if valid.Some? && !valid.value.JBool? then AuthError
      else if valid.Some? && valid.value.b then AuthSuccess
      else
        var message := Member(j.value, "message");
        if message.Some? && !message.value.JString? then AuthError else AuthFailure
  }

  /** Only a "valid": true answer authenticates. */
  lemma TotpAnswerSuccess(j: Option<Json>)
    ensures TotpAnswer(j) == AuthSuccess <==> j.Some? && Member(j.value, "valid") == Some(JBool(true))
  {
  }

  /** `verifyTOTP` as written: an empty response returns `_lastError`. */
  function TotpAsWritten(lastError: int, r: Received, parse: Parser): int
  {
    var response := ResponseOf(r);
    if response == "" then ErrorAfter(lastError, r) else TotpAnswer(parse(response))
  }

  /** `_lastError` is `WP_AUTH_SUCCESS` until a request fails, so on a
      fresh client an empty answer from the server authenticates. */
  lemma EmptyAnswerAuthenticates(parse: Parser)
    ensures TotpAsWritten(AuthSuccess, Body(""), parse) == AuthSuccess
  {
  }

  /** `verifyTOTP` with an empty response always an error. */
  function TotpOutcome(lastError: int, r: Received, parse: Parser): int
  {
    var response := ResponseOf(r);
    if response == "" then
      var e := ErrorAfter(lastError, r);
      if e == AuthSuccess then AuthError else e
    else TotpAnswer(parse(response))
  }

  /** Corrected, the OTP is accepted exactly when the server said
      "valid": true, whatever `_lastError` held. */
  lemma TotpOutcomeSuccess(lastError: int, r: Received, parse: Parser)
    ensures TotpOutcome(lastError, r, parse) == AuthSuccess <==>
              r.Body? && r.text != "" && parse(r.text).Some?
              && Member(parse(r.text).value, "valid") == Some(JBool(true))
  {
    TotpAnswerSuccess(parse(ResponseOf(r)));
  }

  /** `_lastError` after `verifyTOTP`: what the request left, or
      WP_AUTH_ERROR when the answer cannot be read. */
  function TotpError(lastError: int, r: Received, parse: Parser): int
  {
    var response := ResponseOf(r);
    if response != "" && TotpAnswer(parse(response)) == AuthError then AuthError
    else ErrorAfter(lastError, r)
  }

  /** `_lastErrorMessage` after `verifyTOTP`: what the request left, or a
      rejection's "message". */
  function TotpMessage(message: string, r: Received, parse: Parser): string
  {
    var response := ResponseOf(r);
    var j := parse(response);
    if response != "" && j.Some? && TotpAnswer(j) == AuthFailure && Member(j.value, "message").Some?
    then Member(j.value, "message").value.s
    else MessageAfter(message, r)
  }

  /** As written, `_lastError` carries over from one `verifyTOTP` to the
      next: once a code is accepted on a fresh client, an empty answer to
      the next call authenticates as well. */
  lemma AcceptedThenEmptyAuthenticates(r: Received, parse: Parser)
    requires TotpAsWritten(AuthSuccess, r, parse) == AuthSuccess
    ensures TotpError(AuthSuccess, r, parse) == AuthSuccess
    ensures TotpAsWritten(TotpError(AuthSuccess, r, parse), Body(""), parse) == AuthSuccess
  {
  }

  /** `sendPush` for a non-empty response. */
  function PushAnswer(j: Option<Json>): (hr: int)
    ensures hr == TriggeredPush || hr == UserNotFound || hr == AuthError
  {
    if j.None? then AuthError
    else
      var id := Member(j.value, "requestId");
      var expires := Member(j.value, "expiresIn");
      var error := Member(j.value, "error");
      if id.Some? then
        if id.value.JString? && (expires.None? || AsInt(expires.value).Some?) then TriggeredPush
        else AuthError
      else if error == Some(JString("user_not_found")) then UserNotFound
      else AuthError
  }

  /** Whether `sendPush` reaches its `catch` on a non-empty response. */
  predicate PushThrows(j: Option<Json>)
  {
    j.None? ||
    var id := Member(j.value, "requestId");
    var expires := Member(j.value, "expiresIn");
    var error := Member(j.value, "error");
    if id.Some? then !id.value.JString? || (expires.Some? && AsInt(expires.value).None?)
    else error.Some? && !error.value.JString?
  }

  /** The challenge after `sendPush` read `j`: the id and "pending" are
      stored before "expiresIn" is read, so a bad "expiresIn" leaves them
      stored. */
  function ChallengeAfter(ch: PushChallenge, j: Option<Json>): PushChallenge
  {
    if j.None? then ch
    else
      var id := Member(j.value, "requestId");
      var expires := Member(j.value, "expiresIn");
      if id.None? || !id.value.JString? then ch
      else
        var pending := ch.(requestId := id.value.s, status := "pending");
        if expires.None? then pending.(expiresIn := DefaultExpiresIn)
        else if AsInt(expires.value).None? then pending
        else pending.(expiresIn := AsInt(expires.value).value)
  }

  /** `_lastErrorMessage` after `sendPush` read `j`. */
  function PushMessage(message: string, j: Option<Json>): string
  {
    if j.None? then message
    else
      var id := Member(j.value, "requestId");
      var error := Member(j.value, "error");
      if id.None? && error.Some? && error.value.JString? then error.value.s else message
  }

  /** A triggered push stores the server's request id as pending, with its
      lifetime (60 seconds when the server gives none); "user_not_found"
      is reported as such; an answer without a string id leaves the
      challenge alone. */
  lemma PushAnswerCases(ch: PushChallenge, j: Option<Json>)
    ensures PushAnswer(j) == TriggeredPush <==>
              && j.Some? && Member(j.value, "requestId").Some? && Member(j.value, "requestId").value.JString?
              && (Member(j.value, "expiresIn").None? || AsInt(Member(j.value, "expiresIn").value).Some?)
    ensures PushAnswer(j) == TriggeredPush ==>
              && ChallengeAfter(ch, j).requestId == Member(j.value, "requestId").value.s
              && ChallengeAfter(ch, j).status == "pending"
              && (Member(j.value, "expiresIn").None? ==> ChallengeAfter(ch, j).expiresIn == DefaultExpiresIn)
              && (Member(j.value, "expiresIn").Some? ==>
                    ChallengeAfter(ch, j).expiresIn == AsInt(Member(j.value, "expiresIn").value).value)
    ensures PushAnswer(j) == UserNotFound <==>
              j.Some? && Member(j.value, "requestId").None?
              && Member(j.value, "error") == Some(JString("user_not_found"))
    ensures PushThrows(j) ==> PushAnswer(j) == AuthError
    ensures (j.None? || Member(j.value, "requestId").None? || !Member(j.value, "requestId").value.JString?) ==>
              ChallengeAfter(ch, j) == ch
  {
  }

  /** `checkPushStatus` for a non-empty response: "status" (default
      "pending") mapped; a status that is not a string, or a value that is
      not an object, makes nlohmann throw. */
  function StatusAnswer(j: Option<Json>): (r: int)
    ensures r == PushApproved || r == PushDenied || r == PushExpired || r == PushPending || r == AuthError
  {
    if j.None? || !j.value.JObject? then AuthError
    else
      var s := Member(j.value, "status");
      if s.None? then PushPending
      else if !s.value.JString? then AuthError
      else if s.value.s == "approved" then PushApproved
      else if s.value.s == "denied" then PushDenied
      else if s.value.s == "expired" then PushExpired
      else PushPending
  }

  /** The status names and their codes; a missing status is pending. */
  lemma StatusAnswerCases(fields: map<string, Json>)
    ensures "status" !in fields ==> StatusAnswer(Some(JObject(fields))) == PushPending
    ensures StatusAnswer(Some(JObject(fields["status" := JString("approved")]))) == PushApproved
    ensures StatusAnswer(Some(JObject(fields["status" := JString("denied")]))) == PushDenied
    ensures StatusAnswer(Some(JObject(fields["status" := JString("expired")]))) == PushExpired
    ensures forall s :: s != "approved" && s != "denied" && s != "expired" ==>
              StatusAnswer(Some(JObject(fields["status" := JString(s)]))) == PushPending
  {
  }

  /** What one status check decides, whatever `_lastError` holds: the
      answer for a non-empty response, and pending otherwise. */
  function Verdict(c: Config, requestId: string, t: Transport, parse: Parser): int
  {
    if SplitUrl(c.apiEndpoint).None? then AuthError
    else
      var response := ResponseOf(t.perform(RequestFor(c, "GET", PushStatusPath + requestId, "", t)));
      if response == "" then PushPending else StatusAnswer(parse(response))
  }

  /** The verdicts of the checks made with the successive transports. */
  function Verdicts(c: Config, requestId: string, polls: nat -> Transport, parse: Parser): nat -> int
  {
    (i: nat) => Verdict(c, requestId, polls(i), parse)
  }

  /** Decisive codes: approved, denied, expired. */
  predicate Decisive(status: int)
  {
    status == PushApproved || status == PushDenied || status == PushExpired
  }

  /** How `pollThread` ends: the callback's argument, the number of checks
      made, and whether it ran out of checks (the one exit that leaves
      `_runPoll` set). */
  datatype PollEnd = PollEnd(approved: bool, checks: nat, timedOut: bool)

  /** `pollThread`'s loop over check verdicts `status(i)`, where
      `stopped(i)` means `_runPoll` was cleared before the i-th test of the
      loop. */
  function PollFrom(status: nat -> int, stopped: nat -> bool, maxPolls: int, i: nat): (r: PollEnd)
    ensures i <= r.checks
    ensures r.approved ==> r.checks >= 1 && status(r.checks - 1) == PushApproved
    ensures r.timedOut ==> !r.approved && r.checks >= maxPolls
    decreases if i < maxPolls then maxPolls - i else 0
  {
    if stopped(i) then PollEnd(false, i, false)
    else if i >= maxPolls then PollEnd(false, i, true)
    else if status(i) == PushApproved then PollEnd(true, i + 1, false)
    else if Decisive(status(i)) then PollEnd(false, i + 1, false)
    else PollFrom(status, stopped, maxPolls, i + 1)
  }

  /** At most `maxPolls` checks, and none for a non-positive bound. */
  lemma {:induction false} PollChecksBounded(status: nat -> int, stopped: nat -> bool, maxPolls: int, i: nat)
    ensures PollFrom(status, stopped, maxPolls, i).checks <= if i < maxPolls then maxPolls else i
    decreases if i < maxPolls then maxPolls - i else 0
  {
    if !stopped(i) && i < maxPolls && !Decisive(status(i)) {
      PollChecksBounded(status, stopped, maxPolls, i + 1);
    }
  }

  /** What the status request made with transport `t` receives. */
  function StatusReply(c: Config, requestId: string, t: Transport): Received
    requires SplitUrl(c.apiEndpoint).Some?
  {
    t.perform(RequestFor(c, "GET", PushStatusPath + requestId, "", t))
  }

  /** What the status requests of a poll receive, check by check. */
  function StatusReplies(c: Config, requestId: string, polls: nat -> Transport): nat -> Received
    requires SplitUrl(c.apiEndpoint).Some?
  {
    (i: nat) => StatusReply(c, requestId, polls(i))
  }

  /** `replies(i)` is what the i-th status request receives. */
  ghost predicate RepliesOf(replies: nat -> Received, c: Config, requestId: string, polls: nat -> Transport)
  {
    SplitUrl(c.apiEndpoint).Some? &&
    forall i: nat {:trigger polls(i)} :: replies(i) == StatusReply(c, requestId, polls(i))
  }

  /** `status(i)` is the verdict of the i-th check. */
  ghost predicate VerdictsOf(status: nat -> int, c: Config, requestId: string, polls: nat -> Transport, parse: Parser)
  {
    forall i: nat {:trigger polls(i)} :: status(i) == Verdict(c, requestId, polls(i), parse)
  }

  /** `_lastError` after the first `n` requests, receiving `replies(i)`. */
  function ErrorAcross(replies: nat -> Received, lastError: int, n: nat): int
  {
    if n == 0 then lastError else ErrorAfter(ErrorAcross(replies, lastError, n - 1), replies(n - 1))
  }

  /** `_lastErrorMessage` after the first `n` requests. */
  function MessageAcross(replies: nat -> Received, message: string, n: nat): string
  {
    if n == 0 then message else MessageAfter(MessageAcross(replies, message, n - 1), replies(n - 1))
  }

  /** One more request folds its reply into the error and the message. */
  lemma AcrossStep(replies: nat -> Received, lastError: int, message: string, n: nat, r: Received)
    requires replies(n) == r
    ensures ErrorAcross(replies, lastError, n + 1) == ErrorAfter(ErrorAcross(replies, lastError, n), r)
    ensures MessageAcross(replies, message, n + 1) == MessageAfter(MessageAcross(replies, message, n), r)
  {
  }

  /** Requests that all get an answer leave `_lastError` and
      `_lastErrorMessage` as they were; once one fails, `_lastError` holds
      one of the failure codes. */
  lemma {:induction false} PollErrors(replies: nat -> Received, lastError: int, message: string, n: nat)
    ensures (forall i :: 0 <= i < n ==> replies(i).Body?) ==>
              ErrorAcross(replies, lastError, n) == lastError
              && MessageAcross(replies, message, n) == message
    ensures (exists i :: 0 <= i < n && !replies(i).Body?) ==>
              var e := ErrorAcross(replies, lastError, n);
              e == SetupError || e == ServerUnavailable
    decreases n
  {
    if n > 0 {
      var last := n - 1;
      PollErrors(replies, lastError, message, last);
      if replies(last).Body? {
        if i :| 0 <= i < n && !replies(i).Body? {
          assert i < last;
        }
      }
    }
  }

  /** Check `k`, at or after `i` and within the bound, approves, and no
      stop and no other decisive answer comes from `i` up to it. */
  predicate ApprovedAt(status: nat -> int, stopped: nat -> bool, maxPolls: int, i: nat, k: nat)
  {
    i <= k < maxPolls && status(k) == PushApproved
    && (forall j :: i <= j <= k ==> !stopped(j))
    && (forall j :: i <= j < k ==> !Decisive(status(j)))
  }

  /** The callback gets true exactly when an approval comes within the
      bound, before any other decisive answer and before the stop. */
  lemma {:induction false} PollApprovedIff(status: nat -> int, stopped: nat -> bool, maxPolls: int, i: nat)
    ensures PollFrom(status, stopped, maxPolls, i).approved <==>
              exists k :: ApprovedAt(status, stopped, maxPolls, i, k)
    decreases if i < maxPolls then maxPolls - i else 0
  {
    if stopped(i) || i >= maxPolls {
    } else if status(i) == PushApproved {
      assert ApprovedAt(status, stopped, maxPolls, i, i);
    } else if Decisive(status(i)) {
      forall k | i < k ensures !ApprovedAt(status, stopped, maxPolls, i, k) {
        assert Decisive(status(i));
      }
    } else {
      var next := i + 1;
      PollApprovedIff(status, stopped, maxPolls, next);
      if k :| ApprovedAt(status, stopped, maxPolls, i, k) {
        assert ApprovedAt(status, stopped, maxPolls, next, k);
      }
      if k :| ApprovedAt(status, stopped, maxPolls, next, k) {
        assert ApprovedAt(status, stopped, maxPolls, i, k);
      }
    }
  }

  /** `getAuthMethods` for a non-empty response, given what the two out
      parameters held: the code and the two flags. */
  function AuthMethodsAnswer(c: Config, j: Option<Json>, totpBefore: bool, pushBefore: bool): (r: (int, bool, bool))
    ensures r.0 == AuthSuccess || r.0 == UserNotFound || r.0 == AuthError
  {
    var fallback := (AuthError, c.totpEnabled, c.pushEnabled);
    if j.None? then fallback
    else
      var success := Member(j.value, "success");
      if success.Some? && !success.value.JBool? then fallback
      else if success.Some? && success.value.b then
        var totp := Member(j.value, "totpEnabled");
        var push := Member(j.value, "pushEnabled");
        if (totp.Some? && !totp.value.JBool?) || (push.Some? && !push.value.JBool?) then fallback
        else (AuthSuccess, totp.None? || totp.value.b, push.None? || push.value.b)
      else if Member(j.value, "error") == Some(JString("user_not_found")) then (UserNotFound, false, false)
      else (AuthError, totpBefore, pushBefore)
  }

  /** Success reports the server's flags (each true when absent); an
      unknown user has neither method; a parse error falls back on the
      configuration. */
  lemma AuthMethodsCases(c: Config, j: Option<Json>, totpBefore: bool, pushBefore: bool)
    ensures var r := AuthMethodsAnswer(c, j, totpBefore, pushBefore);
            r.0 == AuthSuccess ==>
              && j.Some? && Member(j.value, "success") == Some(JBool(true))
              && (r.1 <==> Member(j.value, "totpEnabled") != Some(JBool(false)))
              && (r.2 <==> Member(j.value, "pushEnabled") != Some(JBool(false)))
    ensures var r := AuthMethodsAnswer(c, j, totpBefore, pushBefore);
            r.0 == UserNotFound ==> !r.1 && !r.2
    ensures j.None? ==> AuthMethodsAnswer(c, j, totpBefore, pushBefore) == (AuthError, c.totpEnabled, c.pushEnabled)
  {
  }

  // ---------------------------------------------------------------------
  // The client

  /** The push challenge `sendPush` records. */
  datatype PushChallenge = PushChallenge(requestId: string, status: string, expiresIn: int)

  class Api {
    var config: Config
    var challenge: PushChallenge
    var runPoll: bool
    var lastError: int
    var lastErrorMessage: string

    /** `_lastError` only ever holds the codes it is given. */
    ghost predicate Valid()
      reads this
    {
      IsErrorCode(lastError)
    }

    constructor(c: Config)
      ensures Valid()
      ensures config == c && challenge == PushChallenge("", "", DefaultExpiresIn)
      ensures !runPoll && lastError == AuthSuccess && lastErrorMessage == ""
    {
      config := c;
      challenge := PushChallenge("", "", DefaultExpiresIn);
      runPoll := false;
      lastError := AuthSuccess;
      lastErrorMessage := "";
    }

    /** `makeRequest`: "" and `_lastError` set where WinHTTP fails, else
        the body read. */
    method MakeRequest(verb: string, path: string, body: string, t: Transport) returns (response: string)
      requires Valid() && SplitUrl(config.apiEndpoint).Some?
      modifies this
      ensures config == old(config) && challenge == old(challenge) && runPoll == old(runPoll)
      ensures Valid()
      ensures var r := t.perform(RequestFor(old(config), verb, path, body, t));
              && response == ResponseOf(r)
              && lastError == ErrorAfter(old(lastError), r)
              && lastErrorMessage == MessageAfter(old(lastErrorMessage), r)
    {
      var request := RequestFor(config, verb, path, body, t);
      var r := t.perform(request);
      match r
      case SessionFailed =>
        lastError := SetupError;
        lastErrorMessage := "Failed to initialize HTTP";
        return "";
      case ConnectFailed =>
        lastError := ServerUnavailable;
        lastErrorMessage := "Failed to connect";
        return "";
      case OpenFailed =>
        lastError := SetupError;
        return "";
      case SendFailed =>
        lastError := ServerUnavailable;
        return "";
      case ReceiveFailed =>
        lastError := ServerUnavailable;
        return "";
      case Body(text) =>
        return text;
    }

    /** The answer part of `verifyTOTP`: `_lastError` set on a parse or
        type error, `_lastErrorMessage` from a failure's "message". */
    method TotpAnswerStep(j: Option<Json>) returns (hr: int)
      requires Valid()
      modifies this
      ensures Valid()
      ensures hr == TotpAnswer(j)
      ensures lastError == if hr == AuthError then AuthError else old(lastError)
      ensures hr == AuthFailure && Member(j.value, "message").Some? ==>
                lastErrorMessage == Member(j.value, "message").value.s
      ensures !(hr == AuthFailure && Member(j.value, "message").Some?) ==>
                lastErrorMessage == old(lastErrorMessage)
      ensures config == old(config) && challenge == old(challenge) && runPoll == old(runPoll)
    {
      if j.None? {
        lastError := AuthError;
        return AuthError;
      }
      var valid := Member(j.value, "valid");
      if valid.Some? && !valid.value.JBool? {
        lastError := AuthError;
        return AuthError;
      }
      if valid.Some? && valid.value.b {
        return AuthSuccess;
      }
      var message := Member(j.value, "message");
      if message.Some? {
        if !message.value.JString? {
          lastError := AuthError;
          return AuthError;
        }
        lastErrorMessage := message.value.s;
      }
      return AuthFailure;
    }

    /** `verifyTOTP` as written. */
    method VerifyTotpAsWritten(username: string, code: string, t: Transport, parse: Parser)
      returns (hr: int)
      requires Valid() && SplitUrl(config.apiEndpoint).Some?
      modifies this
      ensures Valid()
      ensures var r := t.perform(RequestFor(old(config), "POST", TotpVerifyPath, TotpBody(username, code), t));
              && hr == TotpAsWritten(old(lastError), r, parse)
              && lastError == TotpError(old(lastError), r, parse)
              && lastErrorMessage == TotpMessage(old(lastErrorMessage), r, parse)
      ensures config == old(config) && challenge == old(challenge) && runPoll == old(runPoll)
    {
      var response := MakeRequest("POST", TotpVerifyPath, TotpBody(username, code), t);
      if response == "" {
        return lastError;
      }
      hr := TotpAnswerStep(parse(response));
    }

    /** `verifyTOTP` with an empty response reported as an error. */
    method VerifyTotp(username: string, code: string, t: Transport, parse: Parser)
      returns (hr: int)
      requires Valid() && SplitUrl(config.apiEndpoint).Some?
      modifies this
      ensures Valid()
      ensures var r := t.perform(RequestFor(old(config), "POST", TotpVerifyPath, TotpBody(username, code), t));
              && hr == TotpOutcome(old(lastError), r, parse)
              && lastError == TotpError(old(lastError), r, parse)
              && lastErrorMessage == TotpMessage(old(lastErrorMessage), r, parse)
      ensures config == old(config) && challenge == old(challenge) && runPoll == old(runPoll)
    {
      var response := MakeRequest("POST", TotpVerifyPath, TotpBody(username, code), t);
      if response == "" {
        return if lastError == AuthSuccess then AuthError else lastError;
      }
      hr := TotpAnswerStep(parse(response));
    }

    /** The answer part of `sendPush`. */
    method PushAnswerStep(j: Option<Json>) returns (hr: int)
      requires Valid()
      modifies this
      ensures config == old(config) && runPoll == old(runPoll)
      ensures Valid()
      ensures hr == PushAnswer(j)
      ensures challenge == ChallengeAfter(old(challenge), j)
      ensures lastErrorMessage == PushMessage(old(lastErrorMessage), j)
      ensures lastError == if PushThrows(j) then AuthError else old(lastError)
    {
      if j.None? {
        lastError := AuthError;
        return AuthError;
      }
      var id := Member(j.value, "requestId");
      if id.Some? {
        if !id.value.JString? {
          lastError := AuthError;
          return AuthError;
        }
        challenge := challenge.(requestId := id.value.s, status := "pending");
        var expires := Member(j.value, "expiresIn");
        if expires.None? {
          challenge := challenge.(expiresIn := DefaultExpiresIn);
        } else {
          var n := AsInt(expires.value);
          if n.None? {
            lastError := AuthError;
            return AuthError;
          }
          challenge := challenge.(expiresIn := n.value);
        }
        return TriggeredPush;
      }
      var error := Member(j.value, "error");
      if error.Some? {
        if !error.value.JString? {
          lastError := AuthError;
          return AuthError;
        }
        lastErrorMessage := error.value.s;
        if error.value.s == "user_not_found" {
          return UserNotFound;
        }
      }
      return AuthError;
    }

    /** `sendPush`. */
    method SendPush(username: string, hostname: string, t: Transport, parse: Parser)
      returns (hr: int)
      requires Valid() && SplitUrl(config.apiEndpoint).Some?
      modifies this
      ensures config == old(config) && runPoll == old(runPoll)
      ensures Valid()
      ensures var r := t.perform(RequestFor(old(config), "POST", PushSendPath, PushBody(username, hostname), t));
              ResponseOf(r) == "" ==>
                && hr == ErrorAfter(old(lastError), r) && challenge == old(challenge)
                && lastError == ErrorAfter(old(lastError), r)
                && lastErrorMessage == MessageAfter(old(lastErrorMessage), r)
      ensures var r := t.perform(RequestFor(old(config), "POST", PushSendPath, PushBody(username, hostname), t));
              var j := parse(ResponseOf(r));
              ResponseOf(r) != "" ==>
                && hr == PushAnswer(j) && challenge == ChallengeAfter(old(challenge), j)
                && lastError == (if PushThrows(j) then AuthError else old(lastError))
                && lastErrorMessage == PushMessage(MessageAfter(old(lastErrorMessage), r), j)
    {
      var response := MakeRequest("POST", PushSendPath, PushBody(username, hostname), t);
      if response == "" {
        return lastError;
      }
      hr := PushAnswerStep(parse(response));
    }

    /** `checkPushStatus`: `_lastError` for an empty response, else the
        mapped "status"; its `catch` leaves `_lastError` alone. */
    method CheckPushStatus(requestId: string, t: Transport, parse: Parser) returns (hr: int)
      requires Valid() && SplitUrl(config.apiEndpoint).Some?
      modifies this
      ensures Valid()
      ensures var r := t.perform(RequestFor(old(config), "GET", PushStatusPath + requestId, "", t));
              && hr == (if ResponseOf(r) == "" then ErrorAfter(old(lastError), r) else StatusAnswer(parse(ResponseOf(r))))
              && lastError == ErrorAfter(old(lastError), r)
              && lastErrorMessage == MessageAfter(old(lastErrorMessage), r)
      ensures Decisive(hr) <==> Decisive(Verdict(old(config), requestId, t, parse))
      ensures hr == PushApproved <==> Verdict(old(config), requestId, t, parse) == PushApproved
      ensures config == old(config) && challenge == old(challenge) && runPoll == old(runPoll)
    {
      var response := MakeRequest("GET", PushStatusPath + requestId, "", t);
      if response == "" {
        return lastError;
      }
      hr := StatusAnswer(parse(response));
    }

    /** One check of the poll loop: `checkPushStatus` with the `n`-th
        transport, whose reply is `replies(n)` and whose verdict is
        `status(n)`; it extends the fold of `_lastError` and
        `_lastErrorMessage` over the replies by one. */
    method PollCheck(requestId: string, polls: nat -> Transport, parse: Parser, n: nat,
                     ghost replies: nat -> Received, ghost status: nat -> int,
                     ghost error0: int, ghost message0: string) returns (hr: int)
      requires Valid() && SplitUrl(config.apiEndpoint).Some?
      requires RepliesOf(replies, config, requestId, polls)
      requires VerdictsOf(status, config, requestId, polls, parse)
      requires lastError == ErrorAcross(replies, error0, n)
      requires lastErrorMessage == MessageAcross(replies, message0, n)
      modifies this
      ensures Valid() && config == old(config) && challenge == old(challenge) && runPoll == old(runPoll)
      ensures lastError == ErrorAcross(replies, error0, n + 1)
      ensures lastErrorMessage == MessageAcross(replies, message0, n + 1)
      ensures hr == PushApproved <==> status(n) == PushApproved
      ensures Decisive(hr) <==> Decisive(status(n))
    {
      var t := polls(n);
      AcrossStep(replies, error0, message0, n, replies(n));
      hr := CheckPushStatus(requestId, t, parse);
    }

    /** The loop of `pollThread`, from `_runPoll` set as `stopped(0)`
        leaves it, against the replies and verdicts of the checks. */
    method PollLoop(requestId: string, polls: nat -> Transport, parse: Parser, stopped: nat -> bool,
                    maxPolls: int, ghost replies: nat -> Received, ghost status: nat -> int)
      returns (callbacks: seq<bool>, checks: nat)
      requires Valid() && SplitUrl(config.apiEndpoint).Some?
      requires RepliesOf(replies, config, requestId, polls)
      requires VerdictsOf(status, config, requestId, polls, parse)
      requires runPoll == !stopped(0)
      modifies this
      ensures Valid() && config == old(config) && challenge == old(challenge)
      ensures var e := PollFrom(status, stopped, maxPolls, 0);
              callbacks == [e.approved] && checks == e.checks && runPoll == e.timedOut
      ensures lastError == ErrorAcross(replies, old(lastError), checks)
      ensures lastErrorMessage == MessageAcross(replies, old(lastErrorMessage), checks)
    {
      var pollCount := 0;
      var approved, decided := false, false;
      while runPoll && pollCount < maxPolls
        invariant Valid() && config == old(config) && challenge == old(challenge)
        invariant SplitUrl(config.apiEndpoint).Some?
        invariant lastError == ErrorAcross(replies, old(lastError), pollCount)
        invariant lastErrorMessage == MessageAcross(replies, old(lastErrorMessage), pollCount)
        invariant !decided ==> !approved && runPoll == !stopped(pollCount)
        invariant !decided ==> PollFrom(status, stopped, maxPolls, pollCount) == PollFrom(status, stopped, maxPolls, 0)
        invariant decided ==> !runPoll && PollFrom(status, stopped, maxPolls, 0) == PollEnd(approved, pollCount, false)
        decreases maxPolls - pollCount
      {
        var hr := PollCheck(requestId, polls, parse, pollCount, replies, status, old(lastError), old(lastErrorMessage));
        pollCount := pollCount + 1;
        if hr == PushApproved || hr == PushDenied || hr == PushExpired {
          runPoll := false;
          approved, decided := hr == PushApproved, true;
        } else if stopped(pollCount) {
          runPoll := false;
        }
      }
      if !decided {
        assert PollFrom(status, stopped, maxPolls, pollCount) == PollEnd(false, pollCount, runPoll);
      }
      return [approved], pollCount;
    }

    /** `pollThread`: at most `expiresIn * 2` checks while `_runPoll`
        holds, each with the next transport; the callback is called once.
        `stopped(i)` is another thread's `stopPoll` landing before the
        i-th test of the loop. */
    method PollThread(requestId: string, polls: nat -> Transport, parse: Parser, stopped: nat -> bool)
      returns (callbacks: seq<bool>, checks: nat)
      requires Valid() && SplitUrl(config.apiEndpoint).Some? && runPoll
      modifies this
      ensures Valid()
      ensures var e := PollFrom(Verdicts(old(config), requestId, polls, parse), stopped,
                                Int32(2 * old(challenge.expiresIn)), 0);
              callbacks == [e.approved] && checks == e.checks && runPoll == e.timedOut
      ensures config == old(config) && challenge == old(challenge)
      ensures lastError == ErrorAcross(StatusReplies(old(config), requestId, polls), old(lastError), checks)
      ensures lastErrorMessage == MessageAcross(StatusReplies(old(config), requestId, polls), old(lastErrorMessage), checks)
    {
      var maxPolls := Int32(2 * challenge.expiresIn);
      if stopped(0) {
        runPoll := false;
      }
      callbacks, checks := PollLoop(requestId, polls, parse, stopped, maxPolls,
                                    StatusReplies(config, requestId, polls), Verdicts(config, requestId, polls, parse));
    }

    /** `asyncPollPush`: `_runPoll` set, then the poll loop. */
    method AsyncPollPush(requestId: string, polls: nat -> Transport, parse: Parser, stopped: nat -> bool)
      returns (callbacks: seq<bool>, checks: nat)
      requires Valid() && SplitUrl(config.apiEndpoint).Some?
      modifies this
      ensures Valid()
      ensures var e := PollFrom(Verdicts(old(config), requestId, polls, parse), stopped,
                                Int32(2 * old(challenge.expiresIn)), 0);
              callbacks == [e.approved] && checks == e.checks && runPoll == e.timedOut
      ensures config == old(config) && challenge == old(challenge)
      ensures lastError == ErrorAcross(StatusReplies(old(config), requestId, polls), old(lastError), checks)
      ensures lastErrorMessage == MessageAcross(StatusReplies(old(config), requestId, polls), old(lastErrorMessage), checks)
    {
      runPoll := true;
      callbacks, checks := PollThread(requestId, polls, parse, stopped);
    }

    /** `stopPoll`. */
    method StopPoll() returns (r: bool)
      modifies this
      ensures r && !runPoll
      ensures config == old(config) && challenge == old(challenge)
      ensures lastError == old(lastError) && lastErrorMessage == old(lastErrorMessage)
    {
      runPoll := false;
      return true;
    }

    /** `getAuthMethods`, with the machine name as `hostname` and the out
        parameters' earlier values as `totpBefore` and `pushBefore`. */
    method GetAuthMethods(username: string, hostname: string, t: Transport, parse: Parser,
                          totpBefore: bool, pushBefore: bool)
      returns (hr: int, totpAvailable: bool, pushAvailable: bool)
      requires Valid() && SplitUrl(config.apiEndpoint).Some?
      modifies this
      ensures Valid()
      ensures var r := t.perform(RequestFor(old(config), "POST", RdpAuthPath, AuthMethodsBody(username, hostname), t));
              && (ResponseOf(r) == "" ==> (hr, totpAvailable, pushAvailable) ==
                                           (ErrorAfter(old(lastError), r), config.totpEnabled, config.pushEnabled))
              && (ResponseOf(r) != "" ==> (hr, totpAvailable, pushAvailable) ==
                                           AuthMethodsAnswer(config, parse(ResponseOf(r)), totpBefore, pushBefore))
              && lastError == ErrorAfter(old(lastError), r)
              && lastErrorMessage == MessageAfter(old(lastErrorMessage), r)
      ensures config == old(config) && challenge == old(challenge) && runPoll == old(runPoll)
    {
      var response := MakeRequest("POST", RdpAuthPath, AuthMethodsBody(username, hostname), t);
      if response == "" {
        return lastError, config.totpEnabled, config.pushEnabled;
      }
      var answer := AuthMethodsAnswer(config, parse(response), totpBefore, pushBefore);
      hr, totpAvailable, pushAvailable := answer.0, answer.1, answer.2;
    }
  }
}
