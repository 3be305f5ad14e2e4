/** The proxy's client of the WorldPosta API: signed requests, OTP
    verification, push sending, status polling and the push flow.

    Each HTTP exchange is an `HttpOutcome` parameter (a response with its
    status and decoded JSON object, or the exception aiohttp raised); the
    polling loop reads the clock through the `Poll` readings it is given. */
module ProxyClient {
  import Text
  import ProxySigning
  import opened Wrappers

  /** A decoded JSON value, with Python's truthiness. Floats,
      lists and objects are `Other`. */
  datatype Json = JNull | JBool(b: bool) | JInt(i: int) | JStr(s: string)
                | JOther(truthy: bool, repr: string)
  {
    predicate Truthy()
    {
      match this
      case JNull => false
      case JBool(b) => b
      case JInt(i) => i != 0
      case JStr(s) => s != ""
      case JOther(t, _) => t
    }
  }

  /** One aiohttp exchange: the response, or the exception raised
      (`error` is "timeout" for a timeout, the exception text otherwise). */
  datatype HttpOutcome = Response(status: int, data: map<string, Json>) | Raised(error: string)

  datatype PushStatus = Pending | Approved | Denied | Expired | Error

  datatype Client = Client(endpoint: string, integrationKey: string, secretKey: string,
                           timeout: int)

  const DefaultTimeout: int := 60

  /** `s.rstrip(c)`. */
  function RStrip(s: string, c: char): (r: string)
    ensures |r| <= |s| && r == s[..|r|]
    ensures r == [] || r[|r| - 1] != c
    ensures forall i :: |r| <= i < |s| ==> s[i] == c
  {
    if s != [] && s[|s| - 1] == c then RStrip(s[..|s| - 1], c) else s
  }

  /** `WorldPostaClient(endpoint, integration_key, secret_key, timeout)`. */
  function NewClient(endpoint: string, integrationKey: string, secretKey: string,
                     timeout: int): (c: Client)
    ensures c.endpoint == RStrip(endpoint, '/')
    ensures c.integrationKey == integrationKey && c.secretKey == secretKey
    ensures c.timeout == timeout
  {
    Client(RStrip(endpoint, '/'), integrationKey, secretKey, timeout)
  }

  datatype Verb = Get | Post

  /** What goes on the wire: method, URL, headers and (for POST) the body. */
  datatype HttpRequest = HttpRequest(verb: Verb, url: string, headers: map<string, string>,
                                     payload: Option<string>)

  /** The signed body: the JSON text of a non-empty body, "{}" otherwise. */
  function BodyText(body: Option<string>): string
  {
    body.GetOr("{}")
  }

  /** The request `_request(method, path, body)` sends, at time `timestamp`
      with `random` as the nonce's random bytes. Any method other than GET
      (in any case) is sent as POST; a GET carries no body but is still
      signed over "{}". */
  function BuildRequest(c: Client, mac: ProxySigning.Mac, httpMethod: string, path: string,
                        body: Option<string>, timestamp: int, random: seq<ProxySigning.byte>)
    : (r: HttpRequest)
    requires |random| == ProxySigning.DefaultNonceLength / 2
    ensures r.url == c.endpoint + path
    ensures r.verb == Get <==> Text.Upper(httpMethod) == "GET"
    ensures r.verb == Get ==> r.payload == None
    ensures r.verb == Post ==> r.payload == Some(BodyText(body))
  {
    var bodyStr := BodyText(body);
    var headers := ProxySigning.AuthHeaders(mac, c.integrationKey, c.secretKey, bodyStr,
                                            timestamp, random);
    if Text.Upper(httpMethod) == "GET" then HttpRequest(Get, c.endpoint + path, headers, None)
    else HttpRequest(Post, c.endpoint + path, headers, Some(bodyStr))
  }

  /** Every request is signed over the body text it is built for. */
  lemma RequestSigned(c: Client, mac: ProxySigning.Mac, httpMethod: string, path: string,
                      body: Option<string>, timestamp: int, random: seq<ProxySigning.byte>)
    requires |random| == ProxySigning.DefaultNonceLength / 2
    ensures var r := BuildRequest(c, mac, httpMethod, path, body, timestamp, random);
      ProxySigning.Verifies(mac, c.secretKey, r.headers, BodyText(body))
      && r.headers["X-Integration-Key"] == c.integrationKey
  {
    ProxySigning.HeadersVerify(mac, c.integrationKey, c.secretKey, BodyText(body), timestamp, random);
  }

  /** The `(success, data)` pair of `_request`: success is a status below
      300; an exception becomes `(False, {"error": ...})`. */
  function RequestResult(outcome: HttpOutcome): (r: (bool, map<string, Json>))
    ensures r.0 <==> outcome.Response? && outcome.status < 300
    ensures outcome.Raised? ==> r.1 == map["error" := JStr(outcome.error)]
  {
    match outcome
    case Response(status, data) => (status < 300, data)
    case Raised(error) => (false, map["error" := JStr(error)])
  }

  /** `verify_otp`: the call succeeded and `valid` is truthy. */
  function VerifyOtp(outcome: HttpOutcome): (ok: bool)
    ensures ok <==> outcome.Response? && outcome.status < 300
                    && "valid" in outcome.data && outcome.data["valid"].Truthy()
  {
    var (success, data) := RequestResult(outcome);
    success && "valid" in data && data["valid"].Truthy()
  }

  /** `send_push`: the `requestId` of a successful answer, if it has one. */
  function SendPush(outcome: HttpOutcome): (r: Option<Json>)
    ensures r.Some? <==> outcome.Response? && outcome.status < 300 && "requestId" in outcome.data
    ensures r.Some? ==> r.value == outcome.data["requestId"]
  {
    var (success, data) := RequestResult(outcome);
    if success && "requestId" in data then Some(data["requestId"]) else None
  }

  /** `check_push_status`: the `status` field, compared without regard to
      case; a failed call or any other value is `Error`. */
  function CheckPushStatus(outcome: HttpOutcome): (r: PushStatus)
  {
    var (success, data) := RequestResult(outcome);
    if !success then Error
    else
      var status := if "status" in data && data["status"].JStr? then Text.Lower(data["status"].s)
                    else "";
      if status == "approved" then Approved
      else if status == "denied" then Denied
      else if status == "expired" then Expired
      else if status == "pending" then Pending
      else Error
  }

  /** The status names are recognised in any case, and only those. */
  lemma CheckPushStatusCases(outcome: HttpOutcome)
    ensures !(outcome.Response? && outcome.status < 300) ==> CheckPushStatus(outcome) == Error
    ensures outcome.Response? && outcome.status < 300 && "status" in outcome.data
            && outcome.data["status"].JStr? ==>
              var s := Text.Lower(outcome.data["status"].s);
              && (CheckPushStatus(outcome) == Approved <==> s == "approved")
              && (CheckPushStatus(outcome) == Denied <==> s == "denied")
              && (CheckPushStatus(outcome) == Expired <==> s == "expired")
              && (CheckPushStatus(outcome) == Pending <==> s == "pending")
  {
  }

  /** One pass of the polling loop: the seconds elapsed when the loop
      condition is checked, and what the status request made in that pass
      returned. */
  datatype Poll = Poll(elapsed: real, check: HttpOutcome)

  /** `timeout or self.timeout`: `None` and 0 fall back to the client's. */
  function EffectiveTimeout(c: Client, timeout: Option<int>): (t: int)
    ensures timeout.None? || timeout.value == 0 ==> t == c.timeout
    ensures timeout.Some? && timeout.value != 0 ==> t == timeout.value
  {
    if timeout.None? || timeout.value == 0 then c.timeout else timeout.value
  }

  predicate Terminal(s: PushStatus)
  {
    s == Approved || s == Denied || s == Expired
  }

  /** What `wait_for_push` returns when the pass at index `i` is next: the
      first approved, denied or expired status seen before the deadline,
      and expired when the deadline (or the end of the readings) comes
      first. */
  function WaitFrom(polls: seq<Poll>, timeout: int, i: nat): (r: PushStatus)
    ensures Terminal(r)
    decreases |polls| - i
  {
    if i >= |polls| || polls[i].elapsed >= timeout as real then Expired
    else
      var s := CheckPushStatus(polls[i].check);
      if Terminal(s) then s else WaitFrom(polls, timeout, i + 1)
  }

  function WaitSpec(polls: seq<Poll>, timeout: int): (r: PushStatus)
  {
    WaitFrom(polls, timeout, 0)
  }

  /** `wait_for_push`. */
  method WaitForPush(c: Client, timeout: Option<int>, polls: seq<Poll>) returns (r: PushStatus)
    ensures r == WaitSpec(polls, EffectiveTimeout(c, timeout))
    ensures Terminal(r)
  {
    var t := if timeout.None? || timeout.value == 0 then c.timeout else timeout.value;
    var i := 0;
    while i < |polls| && polls[i].elapsed < t as real
      invariant 0 <= i <= |polls|
      invariant WaitSpec(polls, t) == WaitFrom(polls, t, i)
    {
      var status := CheckPushStatus(polls[i].check);
      if status == Approved {
        WaitStops(polls, t, i);
        return Approved;
      } else if status == Denied || status == Expired {
        WaitStops(polls, t, i);
        return status;
      }
      WaitPending(polls, t, i);
      i := i + 1;
    }
    return Expired;
  }

  /** Pass `k` decides the wait that starts at pass `i`: every pass from
      `i` to `k` began before the deadline, those before `k` saw a pending
      status or a failed check, and pass `k` saw approved, denied or
      expired. */
  ghost predicate DecidedAt(polls: seq<Poll>, timeout: int, i: nat, k: nat)
  {
    && i <= k < |polls|
    && (forall j :: i <= j <= k ==> polls[j].elapsed < timeout as real)
    && (forall j :: i <= j < k ==> !Terminal(CheckPushStatus(polls[j].check)))
    && Terminal(CheckPushStatus(polls[k].check))
  }

  /** The pass that decides the wait gives its status. */
  lemma {:induction false} WaitDecided(polls: seq<Poll>, timeout: int, i: nat, k: nat)
    requires DecidedAt(polls, timeout, i, k)
    ensures WaitFrom(polls, timeout, i) == CheckPushStatus(polls[k].check)
    decreases k - i
  {
    if i < k {
      DecidedLater(polls, timeout, i, k);
      WaitDecided(polls, timeout, i + 1, k);
      WaitPending(polls, timeout, i);
    } else {
      DecidedNow(polls, timeout, i);
    }
  }

  /** A wait decided at its first pass gives that pass's status. */
  lemma DecidedNow(polls: seq<Poll>, timeout: int, i: nat)
    requires DecidedAt(polls, timeout, i, i)
    ensures WaitFrom(polls, timeout, i) == CheckPushStatus(polls[i].check)
  {
    assert polls[i].elapsed < timeout as real;
    WaitStops(polls, timeout, i);
  }

  /** A wait decided at `k > i` is decided at `k` from `i + 1` on, and
      pass `i` saw no decision. */
  lemma DecidedLater(polls: seq<Poll>, timeout: int, i: nat, k: nat)
    requires DecidedAt(polls, timeout, i, k) && i < k
    ensures DecidedAt(polls, timeout, i + 1, k)
    ensures polls[i].elapsed < timeout as real && !Terminal(CheckPushStatus(polls[i].check))
  {
  }

  /** A pass before the deadline that decides gives its status. */
  lemma WaitStops(polls: seq<Poll>, timeout: int, i: nat)
    requires i < |polls| && polls[i].elapsed < timeout as real
    requires Terminal(CheckPushStatus(polls[i].check))
    ensures WaitFrom(polls, timeout, i) == CheckPushStatus(polls[i].check)
  {
  }

  /** A pass before the deadline that decides nothing hands the wait on. */
  lemma WaitPending(polls: seq<Poll>, timeout: int, i: nat)
    requires i < |polls| && polls[i].elapsed < timeout as real
    requires !Terminal(CheckPushStatus(polls[i].check))
    ensures WaitFrom(polls, timeout, i) == WaitFrom(polls, timeout, i + 1)
  {
  }

  /** An approval comes from the pass that decides the wait. */
  lemma {:induction false} ApprovedDecided(polls: seq<Poll>, timeout: int, i: nat)
    requires WaitFrom(polls, timeout, i) == Approved
    ensures exists k: nat :: DecidedAt(polls, timeout, i, k) && CheckPushStatus(polls[k].check) == Approved
    decreases |polls| - i
  {
    if i < |polls| && polls[i].elapsed < timeout as real {
      if Terminal(CheckPushStatus(polls[i].check)) {
        assert DecidedAt(polls, timeout, i, i);
      } else {
        ApprovedDecided(polls, timeout, i + 1);
        var k: nat :| DecidedAt(polls, timeout, i + 1, k) && CheckPushStatus(polls[k].check) == Approved;
        assert DecidedAt(polls, timeout, i, k);
      }
    }
  }

  /** With readings that are never negative, a timeout of zero or less
      expires without a single check. */
  lemma NoTimeNoCheck(polls: seq<Poll>, timeout: int)
    requires timeout <= 0
    requires forall j :: 0 <= j < |polls| ==> polls[j].elapsed >= 0.0
    ensures WaitSpec(polls, timeout) == Expired
  {
  }

  /** `authenticate_push`: send, then wait with the client's timeout; true
      only for an approval. A missing or falsy request id fails at once. */
  function AuthenticatePush(c: Client, send: HttpOutcome, polls: seq<Poll>): (ok: bool)
  {
    var requestId := SendPush(send);
    if requestId.None? || !requestId.value.Truthy() then false
    else WaitSpec(polls, EffectiveTimeout(c, None)) == Approved
  }

  /** A push succeeds exactly when it was sent, got a truthy id, and some
      check before the deadline saw it approved after only pending or
      failed checks. */
  lemma AuthenticatePushApproved(c: Client, send: HttpOutcome, polls: seq<Poll>)
    ensures AuthenticatePush(c, send, polls) <==>
      && SendPush(send).Some? && SendPush(send).value.Truthy()
      && exists k: nat :: DecidedAt(polls, c.timeout, 0, k) && CheckPushStatus(polls[k].check) == Approved
  {
    if WaitSpec(polls, c.timeout) == Approved {
      ApprovedDecided(polls, c.timeout, 0);
    }
    if k: nat :| DecidedAt(polls, c.timeout, 0, k) && CheckPushStatus(polls[k].check) == Approved {
      WaitDecided(polls, c.timeout, 0, k);
    }
  }
}
