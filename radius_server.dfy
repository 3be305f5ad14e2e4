/** The proxy's RADIUS front end: a table of known clients and their
    shared secrets, a table of requests in progress used to drop
    retransmissions (the duplicate rule of section 3 of RFC 2865), and the
    Access-Accept / Access-Reject answer of sections 4.2 and 4.3 of
    RFC 2865.

    The UDP socket and the packet codec are left to the caller: a request
    arrives as the source address and what the codec made of the datagram
    with the client's secret. The clock is the `now` parameter. */
module RadiusServer {
  import Text
  import ProxyConfig
  import ProxyEngine
  import opened Wrappers

  /** Packet codes of section 3 of RFC 2865. */
  const AccessRequest := 1
  const AccessAccept := 2
  const AccessReject := 3

  /** Seconds after which a pending request is stale. */
  const PendingLifetime: real := 120.0

  /** A decoded packet: code, Identifier and attributes (as text). */
  datatype Packet = Packet(code: int, identifier: int, attributes: map<string, string>)

  /** What goes back to the client: nothing (`None`), an empty datagram
      (`b""`, which is not sent either), or a reply carrying a
      Reply-Message. */
  datatype Answer = NoAnswer | EmptyAnswer
                  | Reply(code: int, identifier: int, message: string)

  /** `pkt.get(name, [b""])[0]`, decoded. */
  function Attribute(pkt: Packet, name: string): string
  {
    if name in pkt.attributes then pkt.attributes[name] else ""
  }

  /** The IP to secret table built from the configured clients, in order,
      so that a later entry for an IP replaces an earlier one. */
  function ClientTable(clients: seq<ProxyConfig.RadiusClient>): (t: map<string, string>)
    ensures t.Keys == set c | c in clients :: c.ip
  {
    if clients == [] then map[]
    else
      var last := clients[|clients| - 1];
      var t := ClientTable(clients[..|clients| - 1])[last.ip := last.secret];
      assert forall c :: c in clients <==> c in clients[..|clients| - 1] || c == last;
      t
  }

  /** An IP's secret is the one of its last entry. */
  lemma {:induction false} ClientTableLast(clients: seq<ProxyConfig.RadiusClient>, k: nat)
    requires k < |clients|
    requires forall j :: k < j < |clients| ==> clients[j].ip != clients[k].ip
    ensures ClientTable(clients)[clients[k].ip] == clients[k].secret
  {
    if k < |clients| - 1 {
      var prefix := clients[..|clients| - 1];
      assert forall j :: k < j < |prefix| ==> prefix[j] == clients[j];
      ClientTableLast(prefix, k);
    }
  }

  /** `_get_client_secret`: the secret, or "" (falsy) for an unknown IP. */
  function Secret(clients: map<string, string>, ip: string): string
  {
    if ip in clients then clients[ip] else ""
  }

  /** `f"{source[0]}:{source[1]}:{identifier}"`. */
  function PendingKey(ip: string, port: int, identifier: int): string
  {
    ip + ":" + Text.IntToString(port) + ":" + Text.IntToString(identifier)
  }

  /** The key tells apart every (IP, port, Identifier) triple, even for
      IPv6 addresses, which contain ':' themselves: the last two fields
      are decimal numbers. */
  lemma PendingKeyInjective(ip1: string, port1: int, id1: int, ip2: string, port2: int, id2: int)
    requires PendingKey(ip1, port1, id1) == PendingKey(ip2, port2, id2)
    ensures ip1 == ip2 && port1 == port2 && id1 == id2
  {
    var p1, i1 := Text.IntToString(port1), Text.IntToString(id1);
    var p2, i2 := Text.IntToString(port2), Text.IntToString(id2);
    assert ':' !in i1 && ':' !in i2 && ':' !in p1 && ':' !in p2;
    assert (ip1 + ":" + p1) + [':'] + i1 == (ip2 + ":" + p2) + [':'] + i2;
    Text.JoinUnique(ip1 + ":" + p1, i1, ip2 + ":" + p2, i2, ':');
    assert ip1 + [':'] + p1 == ip2 + [':'] + p2;
    Text.JoinUnique(ip1, p1, ip2, p2, ':');
    Text.IntToStringInjective(port1, port2);
    Text.IntToStringInjective(id1, id2);
  }

  /** The entries `_cleanup_pending` keeps at time `now`. */
  function Unexpired(pending: map<string, real>, now: real): map<string, real>
  {
    map k | k in pending && now - pending[k] <= PendingLifetime :: pending[k]
  }

  /** Cleanup keeps exactly the entries at most 120 s old, with their
      times; a second cleanup at the same time changes nothing, and an
      entry marked at `now` is never removed. */
  lemma UnexpiredExact(pending: map<string, real>, now: real, key: string)
    ensures key in Unexpired(pending, now) <==>
              key in pending && now - pending[key] <= PendingLifetime
    ensures key in Unexpired(pending, now) ==> Unexpired(pending, now)[key] == pending[key]
    ensures Unexpired(Unexpired(pending, now), now) == Unexpired(pending, now)
    ensures key in Unexpired(pending[key := now], now)
  {
  }

  /** The client IP the engine is given: the Calling-Station-Id when the
      packet carries a non-empty one, else the source IP. */
  function CallerIp(pkt: Packet, ip: string): (r: string)
    ensures r == ip || r == Attribute(pkt, "Calling-Station-Id")
    ensures r != ip ==> Attribute(pkt, "Calling-Station-Id") != ""
  {
    var station := Attribute(pkt, "Calling-Station-Id");
    if station != "" then station else ip
  }

  /** The engine's verdict on an Access-Request from `ip`: the packet's
      User-Name and User-Password, the NAS address as the device, and the
      caller's IP. */
  function EngineAnswer(e: ProxyEngine.Engine, b: ProxyEngine.Backends, mode: string, pkt: Packet,
                        ip: string): (ProxyEngine.AuthResult, string)
  {
    ProxyEngine.Authenticate(e, b, Attribute(pkt, "User-Name"), Attribute(pkt, "User-Password"),
                             "NAS: " + Attribute(pkt, "NAS-IP-Address"), CallerIp(pkt, ip), mode)
  }

  /** The answer to an Access-Request from `ip` that is not a duplicate:
      accept on success with a fixed message, reject with the engine's
      message otherwise; an exception from the engine leaves the request
      unanswered. */
  function AuthAnswer(e: ProxyEngine.Engine, b: ProxyEngine.Backends, mode: string, pkt: Packet,
                      ip: string, raised: Option<string>): Answer
  {
    match raised
    case Some(_) => NoAnswer
    case None =>
      var (result, message) := EngineAnswer(e, b, mode, pkt, ip);
      if result == ProxyEngine.Success then Reply(AccessAccept, pkt.identifier, "Authentication successful")
      else Reply(AccessReject, pkt.identifier, message)
  }

  /** An accepted request is one the engine reported as a success, and
      every reply echoes the request's Identifier. */
  lemma AuthAnswerCases(e: ProxyEngine.Engine, b: ProxyEngine.Backends, mode: string, pkt: Packet,
                        ip: string, raised: Option<string>)
    ensures var a := AuthAnswer(e, b, mode, pkt, ip, raised);
      var r := ProxyEngine.Authenticate(e, b, Attribute(pkt, "User-Name"),
                                        Attribute(pkt, "User-Password"),
                                        "NAS: " + Attribute(pkt, "NAS-IP-Address"),
                                        CallerIp(pkt, ip), mode);
      && (a.Reply? <==> raised.None?)
      && (a.Reply? ==> a.identifier == pkt.identifier)
      && (a.Reply? && a.code == AccessAccept <==> raised.None? && r.0 == ProxyEngine.Success)
      && (a.Reply? && a.code == AccessReject <==> raised.None? && r.0 != ProxyEngine.Success)
      && (a.Reply? && a.code == AccessReject ==> a.message == r.1)
  {
  }

  /** The configured modes "auto", "concat" and "challenge" all reach the
      engine as modes other than "push" and "otp", so they authenticate
      alike: a password without a factor triggers a push. */
  lemma ModesAlike(e: ProxyEngine.Engine, b: ProxyEngine.Backends, pkt: Packet, ip: string)
    ensures EngineAnswer(e, b, "concat", pkt, ip) == EngineAnswer(e, b, "auto", pkt, ip)
    ensures EngineAnswer(e, b, "challenge", pkt, ip) == EngineAnswer(e, b, "auto", pkt, ip)
    ensures ',' !in Attribute(pkt, "User-Password") ==>
      ProxyEngine.ChoiceOf(e.isDigit, Attribute(pkt, "User-Password"), "challenge") == ProxyEngine.UsePush
  {
    var user, password := Attribute(pkt, "User-Name"), Attribute(pkt, "User-Password");
    var device, caller := "NAS: " + Attribute(pkt, "NAS-IP-Address"), CallerIp(pkt, ip);
    ProxyEngine.OtherModesAlike(e, b, user, password, device, caller, "concat");
    ProxyEngine.OtherModesAlike(e, b, user, password, device, caller, "challenge");
  }

  /** `RADIUSServer`: its configured mode, the client table and the
      pending-request table (key to the time the request was marked). */
  class Server {
    const mode: string
    var clients: map<string, string>
    var pending: map<string, real>

    constructor (config: ProxyConfig.RadiusServerConfig)
      ensures mode == config.mode
      ensures clients == ClientTable(config.clients)
      ensures pending == map[]
    {
      mode := config.mode;
      var table := map[];
      for k := 0 to |config.clients|
        invariant table == ClientTable(config.clients[..k])
      {
        var client := config.clients[k];
        assert config.clients[..k + 1][..k] == config.clients[..k];
        table := table[client.ip := client.secret];
      }
      assert config.clients[..|config.clients|] == config.clients;
      clients := table;
      pending := map[];
    }

    /** `_is_duplicate`. */
    predicate IsDuplicate(identifier: int, ip: string, port: int)
      reads this
    {
      PendingKey(ip, port, identifier) in pending
    }

    /** `_mark_pending` at time `now`. */
    method MarkPending(identifier: int, ip: string, port: int, now: real)
      modifies this
      ensures pending == old(pending)[PendingKey(ip, port, identifier) := now]
      ensures clients == old(clients)
      ensures IsDuplicate(identifier, ip, port)
    {
      pending := pending[PendingKey(ip, port, identifier) := now];
    }

    /** `_clear_pending`: removing an absent key is harmless. */
    method ClearPending(identifier: int, ip: string, port: int)
      modifies this
      ensures pending == old(pending) - {PendingKey(ip, port, identifier)}
      ensures clients == old(clients)
      ensures !IsDuplicate(identifier, ip, port)
    {
      pending := pending - {PendingKey(ip, port, identifier)};
    }

    /** `_cleanup_pending`: collect the keys older than 120 s, then delete
        them one by one. */
    method CleanupPending(now: real)
      modifies this
      ensures pending == Unexpired(old(pending), now)
      ensures clients == old(clients)
    {
      var expired := set k | k in pending && now - pending[k] > PendingLifetime;
      var todo := expired;
      while todo != {}
        invariant todo <= expired
        invariant pending == old(pending) - (expired - todo)
        invariant clients == old(clients)
        decreases |todo|
      {
        var k :| k in todo;
        pending := pending - {k};
        todo := todo - {k};
      }
      assert pending == Unexpired(old(pending), now);
    }

    /** `_handle_auth_request`, sequentially: a duplicate gets the empty
        answer and the engine is not consulted; otherwise the request is
        marked pending, the engine runs, and the mark is removed whatever
        the outcome. */
    method HandleAuthRequest(pkt: Packet, ip: string, port: int, now: real,
                             e: ProxyEngine.Engine, b: ProxyEngine.Backends, raised: Option<string>)
      returns (answer: Answer)
      modifies this
      ensures old(IsDuplicate(pkt.identifier, ip, port)) ==>
        answer == EmptyAnswer && pending == old(pending)
      ensures !old(IsDuplicate(pkt.identifier, ip, port)) ==>
        answer == AuthAnswer(e, b, mode, pkt, ip, raised) && pending == old(pending)
      ensures clients == old(clients)
    {
      if IsDuplicate(pkt.identifier, ip, port) {
        return EmptyAnswer;
      }
      MarkPending(pkt.identifier, ip, port, now);
      answer := AuthAnswer(e, b, mode, pkt, ip, raised);
      ClearPending(pkt.identifier, ip, port);
      assert pending == old(pending);
    }

    /** `_handle_packet`: `parse` is the codec applied to the datagram
        with the client's secret. An unknown client, a client whose secret
        is empty, an undecodable datagram, a packet without attributes
        (which, as a dictionary, is false) and any code but Access-Request
        get no answer and change nothing. */
    method HandlePacket(ip: string, port: int, parse: string -> Option<Packet>, now: real,
                        e: ProxyEngine.Engine, b: ProxyEngine.Backends, raised: Option<string>)
      returns (answer: Answer)
      modifies this
      ensures var secret := Secret(old(clients), ip);
        || secret == "" || parse(secret).None? || parse(secret).value.attributes == map[]
        || parse(secret).value.code != AccessRequest ==>
          answer == NoAnswer && pending == old(pending)
      ensures var secret := Secret(old(clients), ip);
        && secret != "" && parse(secret).Some? && parse(secret).value.attributes != map[]
        && parse(secret).value.code == AccessRequest ==>
          var pkt := parse(secret).value;
          if old(IsDuplicate(pkt.identifier, ip, port)) then answer == EmptyAnswer
          else answer == AuthAnswer(e, b, mode, pkt, ip, raised)
      ensures pending == old(pending) && clients == old(clients)
    {
      var secret := Secret(clients, ip);
      if secret == "" {
        return NoAnswer;
      }
      var pkt := parse(secret);
      if pkt.None? || pkt.value.attributes == map[] {
        return NoAnswer;
      }
      if pkt.value.code != AccessRequest {
        return NoAnswer;
      }
      answer := HandleAuthRequest(pkt.value, ip, port, now, e, b, raised);
    }
  }
}
