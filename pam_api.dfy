/** The PAM module's client for the WorldPosta API: signed HTTPS requests
    over libcurl, the response buffer curl writes into, and the four calls
    the module makes (verify an OTP, send a push, check a push, wait for a
    push).

    libcurl itself is a parameter: `Transport.perform` answers a request
    with whether the transfer worked, the HTTP status and the chunks of the
    body curl hands to the write callback. The clock, the random bytes,
    the HMAC and the JSON parser are parameters too. */
module PamApi {
  import Text
  import Hex
  import PamCrypto
  import PamConfig
  import ProxySigning
  import opened Wrappers
  import opened CString

  type byte = Hex.byte

  // PUSH_STATUS_* (api.h)
  const PushPending := 0
  const PushApproved := 1
  const PushDenied := 2
  const PushExpired := 3
  const PushError := -1

  const MaxRequestId := 128

  // Buffer sizes the requests are formatted into.
  const UrlSize := 1024
  const HeaderSize := 512
  const OtpBodySize := 512
  const PushBodySize := 1024
  const StatusPathSize := 256

  const OtpPath := "/v1/totp/verify"
  const PushPath := "/v1/push/send"
  const StatusPrefix := "/v1/push/status/"

  /** The text a successful OTP check answers with. */
  const ValidMarker := "\"valid\":true"
  /** The text in front of the id in a push answer. */
  const RequestIdKey := "\"requestId\":\""

  /** Each status check waits this long before the next. */
  const PollIntervalMs := 500

  // ---------------------------------------------------------------------
  // The response buffer

  /** `response_buffer_t`: what curl has delivered so far, kept
      NUL-terminated. */
  class ResponseBuffer {
    var data: array<char>
    var size: nat

    ghost predicate Valid()
      reads this, data
    {
      size < data.Length && data[size] == '\0'
    }

    /** The bytes delivered, NUL bytes included. */
    function Contents(): string
      reads this, data
      requires Valid()
    {
      data[..size]
    }

    /** What the C string functions see in the buffer: its text up to the
        first NUL, which is at the latest the terminator at `size`. */
    function Text(): (r: string)
      reads this, data
      requires Valid()
      ensures r == CStr(Contents() + ['\0'], 0)
    {
      CStrPrefix(data[..], size);
      CStr(data[..], 0)
    }

    /** `malloc(1)` and a NUL: an empty buffer. */
    constructor ()
      ensures Valid() && Contents() == []
    {
      data := new char[1](_ => '\0');
      size := 0;
    }

    /** `write_callback`: `grown` is whether `realloc` succeeds. It
        appends the chunk and keeps the terminator, or reports 0 bytes
        taken and leaves the buffer as it was. */
    method Write(chunk: string, grown: bool) returns (taken: nat)
      requires Valid()
      modifies this
      ensures Valid()
      ensures grown ==> taken == |chunk| && Contents() == old(Contents()) + chunk
      ensures !grown ==> taken == 0 && data == old(data) && size == old(size)
      ensures !grown ==> Contents() == old(Contents())
      ensures grown ==> fresh(data)
    {
      if !grown {
        return 0;
      }
      var grownData := new char[size + |chunk| + 1];
      forall i | 0 <= i <= size {
        grownData[i] := data[i];
      }
      forall i | 0 <= i < |chunk| {
        grownData[size + i] := chunk[i];
      }
      grownData[size + |chunk|] := '\0';
      assert grownData[..size + |chunk|] == data[..size] + chunk;
      data := grownData;
      size := size + |chunk|;
      return |chunk|;
    }
  }

  /** A piece of the body as curl hands it over, and whether the buffer
      can grow to take it. */
  datatype Chunk = Chunk(bytes: string, grown: bool)

  predicate AllTaken(chunks: seq<Chunk>)
  {
    forall k :: 0 <= k < |chunks| ==> chunks[k].grown
  }

  /** What reaches the buffer from chunk `i` on: curl stops the transfer
      at the first chunk the callback does not take whole. */
  function ReceivedFrom(chunks: seq<Chunk>, i: nat): (r: string)
    requires i <= |chunks|
    decreases |chunks| - i
  {
    if i == |chunks| || !chunks[i].grown then [] else chunks[i].bytes + ReceivedFrom(chunks, i + 1)
  }

  /** libcurl's delivery of the body to `write_callback`, chunk by chunk:
      it reports a write error at the first chunk not taken whole. */
  method Deliver(response: ResponseBuffer, chunks: seq<Chunk>) returns (ok: bool)
    requires response.Valid()
    modifies response
    ensures response.Valid()
    ensures ok <==> AllTaken(chunks)
    ensures response.Contents() == old(response.Contents()) + ReceivedFrom(chunks, 0)
  {
    var i := 0;
    while i < |chunks|
      invariant i <= |chunks| && response.Valid()
      invariant forall k :: 0 <= k < i ==> chunks[k].grown
      invariant old(response.Contents()) + ReceivedFrom(chunks, 0)
                == response.Contents() + ReceivedFrom(chunks, i)
      decreases |chunks| - i
    {
      ghost var before := response.Contents();
      var taken := response.Write(chunks[i].bytes, chunks[i].grown);
      if taken != |chunks[i].bytes| || !chunks[i].grown {
        return false;
      }
      assert before + ReceivedFrom(chunks, i)
             == (before + chunks[i].bytes) + ReceivedFrom(chunks, i + 1);
      i := i + 1;
    }
    return true;
  }

  // ---------------------------------------------------------------------
  // Signed requests

  /** What the module gets from its surroundings for one request. */
  datatype Transport = Transport(
    initOk: bool,                    // curl_easy_init
    now: int,                        // time(NULL)
    random: Option<seq<byte>>,       // RAND_bytes for the nonce
    mallocOk: bool,                  // malloc of the signing string
    hmac: PamCrypto.Hmac,
    perform: Request -> Reply)       // curl_easy_perform and the status it reports

  /** A clock that fits a `long`, 16 random bytes, 32-byte digests. */
  ghost predicate Sound(t: Transport)
  {
    && PamCrypto.LongMin <= t.now <= PamCrypto.LongMax
    && (t.random.Some? ==> |t.random.value| == PamCrypto.NonceBytes)
    && forall key: string, data: string :: t.hmac(key, data).Some? ==>
         |t.hmac(key, data).value| == PamCrypto.DigestBytes
  }

  datatype Method = Post(body: string) | Get

  /** What curl is asked to do. */
  datatype Request = Request(url: string, verb: Method, headers: seq<string>,
                             timeout: int, verifyPeer: bool, verifyHost: int)

  /** What curl reports: the transfer's own success (apart from write
      errors), the HTTP status and the body's chunks. */
  datatype Reply = Reply(curlOk: bool, httpCode: int, chunks: seq<Chunk>)

  /** The body a request is signed over: a GET is signed over "". */
  function SignedBody(m: Method): string
  {
    match m
    case Post(body) => body
    case Get => ""
  }

  /** The five headers, each formatted into a 512-character buffer. */
  function HeaderLines(integrationKey: string, signature: string, timestamp: int,
                       nonce: string): seq<string>
  {
    ["Content-Type: application/json",
     Fit("X-Integration-Key: " + integrationKey, HeaderSize),
     Fit("X-Signature: " + signature, HeaderSize),
     Fit("X-Timestamp: " + Text.IntToString(timestamp), HeaderSize),
     Fit("X-Nonce: " + nonce, HeaderSize)]
  }

  /** The headers `build_headers` produces, or `None` when the nonce or
      the signature cannot be made. */
  function SignedHeaders(c: PamConfig.Settings, body: string, t: Transport): Option<seq<string>>
  {
    if t.random.None? || !t.mallocOk then None
    else
      var nonce := Hex.Encode(t.random.value);
      var digest := t.hmac(c.secretKey, PamCrypto.SigningData(t.now, nonce, body));
      if digest.None? then None
      else Some(HeaderLines(c.integrationKey, Hex.Encode(digest.value), t.now, nonce))
  }

  /** The timestamp, nonce and signature headers carry, uncut, the
      values signed, and the signature is the one the proxy computes
      for them. */
  lemma SignedHeadersMatchProxy(c: PamConfig.Settings, body: string, t: Transport,
                                mac: ProxySigning.Mac)
    requires Sound(t) && t.random.Some? && t.mallocOk
    requires var nonce := Hex.Encode(t.random.value);
             var s := ProxySigning.SigningString(t.now, nonce, body);
             t.hmac(c.secretKey, s) == Some(mac(c.secretKey, s))
    ensures SignedHeaders(c, body, t).Some?
    ensures var h := SignedHeaders(c, body, t).value;
            var nonce := Hex.Encode(t.random.value);
            && |h| == 5
            && h[2] == "X-Signature: " + ProxySigning.GenerateSignature(mac, c.secretKey, t.now, nonce, body)
            && h[3] == "X-Timestamp: " + Text.IntToString(t.now)
            && h[4] == "X-Nonce: " + nonce
  {
    var nonce := Hex.Encode(t.random.value);
    PamCrypto.SameSignatureAsProxy(t.hmac, mac, c.secretKey, t.now, nonce, body);
    PamCrypto.LongWidth(t.now);
  }

  /** `build_headers`: a 33-character nonce buffer and a 65-character
      signature buffer are filled, and the five headers formatted from
      them. */
  method BuildHeaders(c: PamConfig.Settings, body: string, t: Transport)
    returns (headers: Option<seq<string>>)
    requires Sound(t)
    ensures headers == SignedHeaders(c, body, t)
  {
    var nonce := new char[PamCrypto.NonceLength + 1];
    var signature := new char[PamCrypto.SignatureLength + 1];
    var rc := PamCrypto.GenerateNonce(nonce, t.random);
    if rc != 0 {
      return None;
    }
    var nonceText := CStr(nonce[..], 0);
    rc := PamCrypto.SignRequest(c.secretKey, t.now, nonceText, body, signature, t.hmac, t.mallocOk);
    if rc != 0 {
      return None;
    }
    headers := Some(HeaderLines(c.integrationKey, CStr(signature[..], 0), t.now, nonceText));
  }

  /** The request `http_post`/`http_get` hands to curl, or `None` when
      curl cannot start or the headers cannot be built. */
  function RequestFor(c: PamConfig.Settings, path: string, m: Method, t: Transport)
    : (r: Option<Request>)
    ensures r.Some? <==> t.initOk && SignedHeaders(c, SignedBody(m), t).Some?
    ensures r.Some? ==> r.value.verifyPeer && r.value.verifyHost == 2
    ensures r.Some? ==> r.value.url == Fit(c.endpoint + path, UrlSize) && r.value.verb == m
    ensures r.Some? ==> r.value.headers == SignedHeaders(c, SignedBody(m), t).value
  {
    if !t.initOk then None
    else
      match SignedHeaders(c, SignedBody(m), t)
      case None => None
      case Some(h) => Some(Request(Fit(c.endpoint + path, UrlSize), m, h, c.timeout, true, 2))
  }

  /** The result rule: curl succeeded and the status is 2xx. */
  predicate Succeeded(reply: Reply)
  {
    reply.curlOk && AllTaken(reply.chunks) && 200 <= reply.httpCode < 300
  }

  /** The text of the answer to a request that succeeded, `None` for one
      that failed. */
  function Exchange(c: PamConfig.Settings, path: string, m: Method, t: Transport): Option<string>
  {
    match RequestFor(c, path, m, t)
    case None => None
    case Some(req) =>
      var reply := t.perform(req);
      if Succeeded(reply) then Some(CStr(ReceivedFrom(reply.chunks, 0) + ['\0'], 0)) else None
  }

  /** A request only succeeds over a verified TLS connection with a 2xx
      status. */
  lemma ExchangeNeedsVerifiedSuccess(c: PamConfig.Settings, path: string, m: Method, t: Transport)
    requires Exchange(c, path, m, t).Some?
    ensures RequestFor(c, path, m, t).Some?
    ensures var req := RequestFor(c, path, m, t).value;
            && req.verifyPeer && req.verifyHost == 2
            && req.headers == SignedHeaders(c, SignedBody(m), t).value
            && t.perform(req).curlOk && 200 <= t.perform(req).httpCode < 300
  {
  }

  /** `http_post` (for `Post`) and `http_get` (for `Get`): 0 when the
      request succeeded, -1 otherwise, with the answer in `response`. */
  method HttpRequest(c: PamConfig.Settings, path: string, m: Method, t: Transport)
    returns (rc: int, response: ResponseBuffer)
    requires Sound(t)
    ensures fresh(response) && response.Valid()
    ensures rc == 0 || rc == -1
    ensures rc == 0 <==> Exchange(c, path, m, t).Some?
    ensures rc == 0 ==> response.Text() == Exchange(c, path, m, t).value
  {
    var url := Fit(c.endpoint + path, UrlSize);
    response := new ResponseBuffer();
    if !t.initOk {
      return -1, response;
    }
    var headers := BuildHeaders(c, SignedBody(m), t);
    if headers.None? {
      return -1, response;
    }
    var req := Request(url, m, headers.value, c.timeout, true, 2);
    assert RequestFor(c, path, m, t) == Some(req);
    var reply := t.perform(req);
    var written := Deliver(response, reply.chunks);
    assert response.Contents() == ReceivedFrom(reply.chunks, 0);
    if !(reply.curlOk && written) {
      return -1, response;
    }
    rc := if 200 <= reply.httpCode < 300 then 0 else -1;
  }

  // ---------------------------------------------------------------------
  // The four calls

  function OtpBody(username: string, code: string): string
  {
    Fit("{\"externalUserId\":\"" + username + "\",\"code\":\"" + code + "\"}", OtpBodySize)
  }

  /** The OTP is accepted when the request succeeds and the answer holds
      `"valid":true` exactly as written. */
  predicate OtpAccepted(c: PamConfig.Settings, username: string, code: string, t: Transport)
  {
    var answer := Exchange(c, OtpPath, Post(OtpBody(username, code)), t);
    answer.Some? && Text.ContainsSub(answer.value, ValidMarker)
  }

  /** `api_verify_otp`: 0 when the OTP is accepted, -1 otherwise. */
  method VerifyOtp(c: PamConfig.Settings, username: string, code: string, t: Transport)
    returns (result: int)
    requires Sound(t)
    ensures result == 0 || result == -1
    ensures result == 0 <==> OtpAccepted(c, username, code, t)
  {
    var rc, response := HttpRequest(c, OtpPath, Post(OtpBody(username, code)), t);
    result := -1;
    if rc == 0 {
      var text := response.Text();
      if Text.FindSub(text, ValidMarker, 0).Some? {
        result := 0;
      }
    }
  }

  function PushBody(username: string, serviceName: string, hostname: string,
                    clientIp: Option<string>): string
  {
    var ip := if clientIp.Some? then clientIp.value else "unknown";
    Fit("{\"externalUserId\":\"" + username + "\",\"serviceName\":\"" + serviceName
        + "\",\"deviceInfo\":\"" + hostname + "\",\"ipAddress\":\"" + ip + "\"}", PushBodySize)
  }

  /** The text from `start` up to the next `stop`, when there is one. */
  function ValueFrom(text: string, start: nat, stop: char): (r: Option<string>)
    requires start <= |text|
    ensures r.Some? ==> stop !in r.value
  {
    var e := Text.FindFrom(text, stop, start);
    if e == |text| then None
    else
      assert forall j :: 0 <= j < e - start ==> text[start..e][j] == text[start + j];
      Some(text[start..e])
  }

  /** The text after the first `key` up to the next `stop`, when there
      is such a `stop`. */
  function ValueAfter(text: string, key: string, stop: char): (r: Option<string>)
    ensures r.Some? ==> stop !in r.value
  {
    var found := Text.FindSub(text, key, 0);
    if found.None? || found.value + |key| > |text| then None
    else ValueFrom(text, found.value + |key|, stop)
  }

  /** The id in a push answer: the text after the first `"requestId":"`
      up to the next '"'. */
  function RequestIdIn(text: string): Option<string>
  {
    ValueAfter(text, RequestIdKey, '"')
  }

  /** A key with no earlier occurrence is found where it is written. */
  lemma KeyFound(text: string, key: string, k: nat)
    requires Text.OccursAt(text, key, k)
    requires forall j :: 0 <= j < k ==> !Text.OccursAt(text, key, j)
    ensures Text.FindSub(text, key, 0) == Some(k)
  {
  }

  /** A value closed by `stop` is read up to that `stop`. */
  lemma ValueClosed(value: string, stop: char, rest: string)
    requires stop !in value
    ensures ValueFrom(value + [stop] + rest, 0, stop) == Some(value)
  {
    var text := value + [stop] + rest;
    assert text[|value|] == stop;
    assert forall j :: 0 <= j < |value| ==> text[j] == value[j];
    Text.FindFromIs(text, stop, 0, |value|);
    assert text[0..|value|] == value;
  }

  /** The value from `start` depends only on the text from `start` on. */
  lemma ValueFromSuffix(text: string, start: nat, stop: char)
    requires start <= |text|
    ensures ValueFrom(text, start, stop) == ValueFrom(text[start..], 0, stop)
  {
    var tail := text[start..];
    var e := Text.FindFrom(text, stop, start);
    assert forall j :: 0 <= j < |tail| ==> tail[j] == text[start + j];
    if e < |text| {
      Text.FindFromIs(tail, stop, 0, e - start);
      assert tail[0..e - start] == text[start..e];
    } else {
      Text.FindFromNone(tail, stop, 0);
    }
  }

  /** A key written after a text in which it does not start is found
      there. */
  lemma KeyWritten(pre: string, key: string, tail: string)
    requires forall j :: 0 <= j < |pre| ==> !Text.OccursAt(pre + key + tail, key, j)
    ensures Text.FindSub(pre + key + tail, key, 0) == Some(|pre|)
  {
    var text := pre + key + tail;
    assert Text.OccursAt(text, key, |pre|) by {
      assert text[|pre|..|pre| + |key|] == key;
    }
    KeyFound(text, key, |pre|);
  }

  /** A value written after the first occurrence of its key and closed
      by `stop` is the value found. */
  lemma ValueAfterFound(pre: string, key: string, value: string, stop: char, rest: string)
    requires stop !in value
    requires forall j :: 0 <= j < |pre| ==> !Text.OccursAt(pre + key + value + [stop] + rest, key, j)
    ensures ValueAfter(pre + key + value + [stop] + rest, key, stop) == Some(value)
  {
    var text := pre + key + value + [stop] + rest;
    var tail := value + [stop] + rest;
    assert text == pre + key + tail;
    KeyWritten(pre, key, tail);
    var start := |pre| + |key|;
    assert text[start..start + |value|] == value;
    assert text[start + |value|] == stop;
    ClosedFind(text, start, value, stop);
    ValueAt(text, key, stop, |pre|, start + |value|);
  }

  /** From `start`, the scan stops just past a `stop`-free value. */
  lemma ClosedFind(text: string, start: nat, value: string, stop: char)
    requires start + |value| < |text| && stop !in value
    requires text[start..start + |value|] == value && text[start + |value|] == stop
    ensures Text.FindFrom(text, stop, start) == start + |value|
  {
    forall j | start <= j < start + |value| ensures text[j] != stop {
      assert text[j] == value[j - start];
    }
    Text.FindFromIs(text, stop, start, start + |value|);
  }

  /** An answer that starts `{"requestId":"` carries the id written up to
      the next '"'. */
  lemma RequestIdFound(id: string, rest: string)
    requires '"' !in id
    ensures RequestIdIn("{" + RequestIdKey + id + "\"" + rest) == Some(id)
  {
    var text := "{" + RequestIdKey + id + "\"" + rest;
    assert !Text.OccursAt(text, RequestIdKey, 0) by {
      assert text[0] == '{' && RequestIdKey[0] == '"';
    }
    ValueAfterFound("{", RequestIdKey, id, '"', rest);
  }

  /** `strchr(p, stop)` from index `start` of a C string: the index of
      the next `stop`, or the end of the text. */
  method Scan(text: string, start: nat, stop: char) returns (e: nat)
    requires start <= |text|
    ensures e == Text.FindFrom(text, stop, start)
  {
    e := start;
    while e < |text| && text[e] != stop
      invariant start <= e <= |text|
      invariant forall j :: start <= j < e ==> text[j] != stop
    {
      e := e + 1;
    }
    if e < |text| {
      Text.FindFromIs(text, stop, start, e);
    } else {
      Text.FindFromNone(text, stop, start);
    }
  }

  /** Where the value found by scanning lies: after the key's first
      occurrence, up to the `stop` the scan reaches. */
  lemma ValueAt(text: string, key: string, stop: char, k: nat, e: nat)
    requires Text.FindSub(text, key, 0) == Some(k)
    requires k + |key| <= e < |text|
    requires e == Text.FindFrom(text, stop, k + |key|)
    ensures ValueAfter(text, key, stop) == Some(text[k + |key|..e])
  {
    ValueFromAt(text, k + |key|, stop, e);
  }

  lemma ValueFromAt(text: string, start: nat, stop: char, e: nat)
    requires start <= e < |text|
    requires e == Text.FindFrom(text, stop, start)
    ensures ValueFrom(text, start, stop) == Some(text[start..e])
  {
  }

  /** With no `stop` after the key, there is no value. */
  lemma ValueMissing(text: string, key: string, stop: char, k: nat)
    requires Text.FindSub(text, key, 0) == Some(k)
    requires k + |key| <= |text| && Text.FindFrom(text, stop, k + |key|) == |text|
    ensures ValueAfter(text, key, stop).None?
  {
  }

  /** `strncpy(requestId, text + start, len)` and the NUL after it. */
  method CopyOut(text: string, start: nat, len: nat, requestId: array<char>)
    requires start + len <= |text| && len < requestId.Length
    modifies requestId
    ensures requestId[..len] == text[start..start + len] && requestId[len] == '\0'
    ensures requestId[len + 1..] == old(requestId[len + 1..])
  {
    var k := 0;
    while k < len
      invariant k <= len
      invariant forall j :: 0 <= j < k ==> requestId[j] == text[start + j]
      invariant forall j :: k <= j < requestId.Length ==> requestId[j] == old(requestId[j])
    {
      requestId[k] := text[start + k];
      k := k + 1;
    }
    requestId[len] := '\0';
  }

  /** `strstr` for the key, `strchr` for the closing quote and the copy
      of the id into the caller's buffer, when it is shorter than the
      buffer. */
  method CopyRequestId(text: string, requestId: array<char>) returns (result: int)
    requires '\0' !in text
    modifies requestId
    ensures result == 0 || result == -1
    ensures result == 0 <==> RequestIdIn(text).Some? && |RequestIdIn(text).value| < requestId.Length
    ensures result == -1 ==> requestId[..] == old(requestId[..])
    ensures result == 0 ==> CStr(requestId[..], 0) == RequestIdIn(text).value
    ensures result == 0 ==> requestId[|RequestIdIn(text).value| + 1..]
                            == old(requestId[|RequestIdIn(text).value| + 1..])
  {
    var found := Text.FindSub(text, RequestIdKey, 0);
    if found.None? {
      return -1;
    }
    var start := found.value + |RequestIdKey|;
    var e := Scan(text, start, '"');
    if e == |text| {
      ValueMissing(text, RequestIdKey, '"', found.value);
      return -1;
    }
    ValueAt(text, RequestIdKey, '"', found.value, e);
    var len := e - start;
    if len >= requestId.Length {
      return -1;
    }
    CopyOut(text, start, len, requestId);
    CopiedId(requestId[..], text, start, len);
    return 0;
  }

  /** A buffer holding a slice of a NUL-free text and a NUL after it holds
      that slice as a C string. */
  lemma CopiedId(buf: seq<char>, text: string, start: nat, len: nat)
    requires '\0' !in text && start + len <= |text| && len < |buf|
    requires buf[..len] == text[start..start + len] && buf[len] == '\0'
    ensures CStr(buf, 0) == text[start..start + len]
  {
    ghost var id := text[start..start + len];
    assert forall j :: 0 <= j < |id| ==> id[j] != '\0' by {
      forall j | 0 <= j < |id| ensures id[j] != '\0' {
        assert id[j] == text[start + j];
      }
    }
    CStrIs(buf, id);
  }

  /** The answer to a push request that succeeded, if any. */
  function PushAnswer(c: PamConfig.Settings, username: string, clientIp: Option<string>,
                      hostname: string, t: Transport): Option<string>
  {
    Exchange(c, PushPath, Post(PushBody(username, c.serviceName, hostname, clientIp)), t)
  }

  /** `api_send_push`: 0 when the request succeeded and its answer names
      an id shorter than the caller's buffer, which then holds it. */
  method SendPush(c: PamConfig.Settings, username: string, clientIp: Option<string>,
                  hostname: string, requestId: array<char>, t: Transport)
    returns (result: int)
    requires Sound(t)
    modifies requestId
    ensures result == 0 || result == -1
    ensures var answer := PushAnswer(c, username, clientIp, hostname, t);
            result == 0 <==> answer.Some? && RequestIdIn(answer.value).Some?
                             && |RequestIdIn(answer.value).value| < requestId.Length
    ensures result == -1 ==> requestId[..] == old(requestId[..])
    ensures result == 0 ==> CStr(requestId[..], 0)
                            == RequestIdIn(PushAnswer(c, username, clientIp, hostname, t).value).value
  {
    var body := PushBody(username, c.serviceName, hostname, clientIp);
    var rc, response := HttpRequest(c, PushPath, Post(body), t);
    if rc != 0 {
      return -1;
    }
    var text := response.Text();
    result := CopyRequestId(text, requestId);
  }

  /** The five codes a status check reports. */
  predicate IsPushCode(r: int)
  {
    r == PushPending || r == PushApproved || r == PushDenied || r == PushExpired || r == PushError
  }

  /** `strcasecmp` against the four status names; anything else is an
      error. */
  function StatusCode(status: string): (r: int)
    ensures IsPushCode(r)
  {
    if Text.EqualsIgnoreCase(status, "approved") then PushApproved
    else if Text.EqualsIgnoreCase(status, "denied") then PushDenied
    else if Text.EqualsIgnoreCase(status, "expired") then PushExpired
    else if Text.EqualsIgnoreCase(status, "pending") then PushPending
    else PushError
  }

  /** Each code comes from its own name, in any case, and only from it. */
  lemma StatusCodeNames(status: string)
    ensures StatusCode(status) == PushApproved <==> Text.EqualsIgnoreCase(status, "approved")
    ensures StatusCode(status) == PushDenied <==> Text.EqualsIgnoreCase(status, "denied")
    ensures StatusCode(status) == PushExpired <==> Text.EqualsIgnoreCase(status, "expired")
    ensures StatusCode(status) == PushPending <==> Text.EqualsIgnoreCase(status, "pending")
  {
    var l := Text.Lower(status);
    assert |Text.Lower("approved")| == 8 && |Text.Lower("denied")| == 6;
    assert |Text.Lower("expired")| == 7 && |Text.Lower("pending")| == 7;
    assert Text.Lower("expired")[0] == 'e' && Text.Lower("pending")[0] == 'p';
  }

  /** The `status` member of a JSON answer, as `json_object_get_string`
      gives it, or `None` when the text does not parse or has none. */
  type StatusReader = string -> Option<string>

  function StatusPath(requestId: string): string
  {
    Fit(StatusPrefix + requestId, StatusPathSize)
  }

  /** The status one check reports. */
  function PushStatus(c: PamConfig.Settings, requestId: string, t: Transport,
                      read: StatusReader): (r: int)
    ensures IsPushCode(r)
    ensures Exchange(c, StatusPath(requestId), Get, t).None? ==> r == PushError
  {
    StatusOf(Exchange(c, StatusPath(requestId), Get, t), read)
  }

  /** The status read from a check's answer; an error without one. */
  function StatusOf(answer: Option<string>, read: StatusReader): (r: int)
    ensures IsPushCode(r)
  {
    match answer
    case None => PushError
    case Some(text) =>
      match read(text)
      case None => PushError
      case Some(status) => StatusCode(status)
  }

  /** A check reports APPROVED exactly when the request succeeded and its
      answer's status reads "approved" in any case; it reports an error
      when the request fails, the answer has no status, or the status is
      none of the four names. */
  lemma PushStatusCases(c: PamConfig.Settings, requestId: string, t: Transport, read: StatusReader)
    ensures var answer := Exchange(c, StatusPath(requestId), Get, t);
            PushStatus(c, requestId, t, read) == PushApproved
            <==> answer.Some? && read(answer.value).Some?
                 && Text.EqualsIgnoreCase(read(answer.value).value, "approved")
    ensures var answer := Exchange(c, StatusPath(requestId), Get, t);
            PushStatus(c, requestId, t, read) == PushError
            <==> answer.None? || read(answer.value).None?
                 || StatusCode(read(answer.value).value) == PushError
  {
  }

  /** `api_check_push_status`. */
  method CheckPushStatus(c: PamConfig.Settings, requestId: string, t: Transport,
                         read: StatusReader) returns (result: int)
    requires Sound(t)
    ensures result == PushStatus(c, requestId, t, read)
  {
    var rc, response := HttpRequest(c, StatusPath(requestId), Get, t);
    ghost var exchanged := if rc == 0 then Some(response.Text()) else None;
    assert exchanged == Exchange(c, StatusPath(requestId), Get, t);
    result := PushError;
    if rc == 0 {
      var answer := response.Text();
      var status := read(answer);
      if status.Some? {
        result := StatusCode(status.value);
      }
    }
  }

  // ---------------------------------------------------------------------
  // Waiting for a push

  /** The checks `api_wait_for_push` makes: check `i` runs over
      `transports(i)`. */
  datatype Poll = Poll(c: PamConfig.Settings, requestId: string,
                       transports: nat -> Transport, read: StatusReader)
  {
    ghost predicate AllSound()
    {
      forall i: nat :: Sound(transports(i))
    }

    /** The status check `i` reports. */
    function Check(i: nat): int
    {
      PushStatus(c, requestId, transports(i), read)
    }

    /** The status each check reports. */
    function Statuses(): nat -> int
    {
      (i: nat) => Check(i)
    }

    /** `status` is this poll's status function, stated one check at a
        time. */
    ghost predicate Reports(status: nat -> int)
    {
      forall i: nat {:trigger Check(i)} :: status(i) == Check(i)
    }
  }

  predicate Final(status: int)
  {
    status == PushApproved || status == PushDenied || status == PushExpired
  }

  /** The outcome of the loop from check `i` on, when check `j` reports
      `status(j)`: the first final status before the counter reaches
      `timeout`, else EXPIRED. */
  function WaitFrom(status: nat -> int, i: nat, timeout: int): (r: int)
    ensures Final(r)
    decreases timeout - i
  {
    if i >= timeout then PushExpired
    else if Final(status(i)) then status(i)
    else WaitFrom(status, i + 1, timeout)
  }

  /** How many checks the loop makes from check `i` on. */
  function ChecksFrom(status: nat -> int, i: nat, timeout: int): (r: nat)
    decreases timeout - i
  {
    if i >= timeout then 0
    else if Final(status(i)) then 1
    else 1 + ChecksFrom(status, i + 1, timeout)
  }

  /** Check `i` of a poll. */
  method CheckAt(p: Poll, i: nat) returns (status: int)
    requires p.AllSound()
    ensures status == p.Check(i)
  {
    status := CheckPushStatus(p.c, p.requestId, p.transports(i), p.read);
  }

  /** `api_wait_for_push`: checks every 500 ms while the counter is below
      `timeout`, and returns the first final status, else EXPIRED. */
  method WaitForPush(p: Poll, timeout: int, ghost status: nat -> int) returns (result: int, checks: nat)
    requires p.AllSound() && p.Reports(status)
    ensures result == WaitFrom(status, 0, timeout)
    ensures checks == ChecksFrom(status, 0, timeout)
  {
    var elapsed: nat := 0;
    while elapsed < timeout
      invariant WaitFrom(status, elapsed, timeout) == WaitFrom(status, 0, timeout)
      invariant elapsed + ChecksFrom(status, elapsed, timeout) == ChecksFrom(status, 0, timeout)
      decreases timeout - elapsed
    {
      var s := CheckAt(p, elapsed);
      if s == PushApproved {
        return PushApproved, elapsed + 1;
      } else if s == PushDenied || s == PushExpired {
        return s, elapsed + 1;
      }
      // usleep(500000)
      elapsed := elapsed + 1;
    }
    return PushExpired, elapsed;
  }

  /** The poll's own status function is the one its checks report. */
  lemma StatusesReport(p: Poll)
    ensures p.Reports(p.Statuses())
  {
  }

  /** The loop makes at most `timeout` checks from the start, none when
      `timeout <= 0`. As it sleeps 500 ms after each non-final check, it
      gives up after `timeout / 2` seconds of sleeping. */
  lemma {:induction false} ChecksBounded(status: nat -> int, i: nat, timeout: int)
    ensures ChecksFrom(status, i, timeout) <= if timeout <= i then 0 else timeout - i
    ensures timeout <= i ==> WaitFrom(status, i, timeout) == PushExpired
    decreases timeout - i
  {
    if i < timeout && !Final(status(i)) {
      ChecksBounded(status, i + 1, timeout);
    }
  }

  /** The loop stops at the first final status: when checks `i` to
      `k - 1` are pending or errors and check `k` is final, the result is
      check `k`'s status after `k - i + 1` checks. */
  lemma {:induction false} WaitStopsAtFirstFinal(status: nat -> int, i: nat, k: nat, timeout: int)
    requires i <= k < timeout
    requires forall j :: i <= j < k ==> !Final(status(j))
    requires Final(status(k))
    ensures WaitFrom(status, i, timeout) == status(k)
    ensures ChecksFrom(status, i, timeout) == k - i + 1
    decreases k - i
  {
    if i < k {
      WaitStopsAtFirstFinal(status, i + 1, k, timeout);
    }
  }

  /** With no final status before the counter runs out, the result is
      EXPIRED after exactly `timeout` checks. */
  lemma {:induction false} WaitRunsOut(status: nat -> int, i: nat, timeout: int)
    requires i <= timeout
    requires forall j :: i <= j < timeout ==> !Final(status(j))
    ensures WaitFrom(status, i, timeout) == PushExpired
    ensures ChecksFrom(status, i, timeout) == timeout - i
    decreases timeout - i
  {
    if i < timeout {
      WaitRunsOut(status, i + 1, timeout);
    }
  }
}
