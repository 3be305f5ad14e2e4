/** The proxy's LDAP front end: a bind is answered after primary and
    second-factor authentication of the user named in the bind DN;
    anonymous binds and searches are answered at once. */
module LdapServer {
  import Text
  import ProxyEngine
  import ProxyClient
  import opened Wrappers

  /** `dn.lower().startswith(p)` for a lower-case ASCII prefix `p`. */
  predicate StartsWithIgnoreCase(s: string, p: string)
  {
    |p| <= |s| && Text.Lower(s[..|p|]) == p
  }

  /** `_extract_username`. */
  function ExtractUsername(dn: string): (r: string)
  {
    if StartsWithIgnoreCase(dn, "cn=") then
      FirstRdnValue(dn, 3)
    else if StartsWithIgnoreCase(dn, "uid=") then
      FirstRdnValue(dn, 4)
    else if '@' in dn && '=' !in dn then
      Text.Before(dn, '@')
    else if '\\' in dn then
      dn[Text.FindLast(dn, '\\').value + 1..]
    else dn
  }

  /** `dn.split(",")[0][n:]`: the first component of the DN without its
      `n`-character attribute prefix. */
  function FirstRdnValue(dn: string, n: nat): (r: string)
    ensures ',' !in r
  {
    var first := Text.Before(dn, ',');
    if n <= |first| then first[n..] else ""
  }

  /** The first component of `attr + user + rest`, past the attribute
      prefix, is the user followed by whatever of `rest` precedes a comma. */
  lemma FirstRdnOf(attr: string, user: string, rest: string)
    requires ',' !in attr && ',' !in user
    ensures FirstRdnValue(attr + user + rest, |attr|) == user + Text.Before(rest, ',')
  {
    var dn := attr + user + rest;
    assert dn == attr + (user + rest);
    Text.BeforeAppend(attr, user + rest, ',');
    Text.BeforeAppend(user, rest, ',');
  }

  /** A DN that starts with a CN component (in any case) names the user
      held in that component. */
  lemma ExtractCn(attr: string, user: string, rest: string)
    requires attr == "CN=" || attr == "cn=" || attr == "Cn=" || attr == "cN="
    requires ',' !in user
    ensures ExtractUsername(attr + user + rest) == user + Text.Before(rest, ',')
  {
    var dn := attr + user + rest;
    assert StartsWithIgnoreCase(dn, "cn=") by {
      assert dn[..3] == attr;
    }
    FirstRdnOf(attr, user, rest);
  }

  /** Likewise for a leading uid component. */
  lemma ExtractUid(attr: string, user: string, rest: string)
    requires attr == "uid=" || attr == "UID="
    requires ',' !in user
    ensures ExtractUsername(attr + user + rest) == user + Text.Before(rest, ',')
  {
    var dn := attr + user + rest;
    assert !StartsWithIgnoreCase(dn, "cn=") by {
      assert dn[..3] == attr[..3];
      assert Text.Lower(dn[..3])[0] == 'u';
    }
    assert StartsWithIgnoreCase(dn, "uid=") by {
      assert dn[..4] == attr;
    }
    FirstRdnOf(attr, user, rest);
  }

  lemma ExtractEmail(local: string, domain: string)
    requires '@' !in local && '=' !in local + domain
    requires !StartsWithIgnoreCase(local + "@" + domain, "cn=")
    requires !StartsWithIgnoreCase(local + "@" + domain, "uid=")
    ensures ExtractUsername(local + "@" + domain) == local
  {
    var dn := local + "@" + domain;
    assert dn[|local|] == '@';
    assert '=' !in local && '=' !in domain;
    assert '=' !in dn;
    assert dn == local + ("@" + domain);
    Text.BeforeAppend(local, "@" + domain, '@');
    assert Text.Before("@" + domain, '@') == [];
  }

  lemma ExtractDomainAccount(domain: string, account: string)
    requires '\\' !in account && '@' !in domain + account
    requires !StartsWithIgnoreCase(domain + "\\" + account, "cn=")
    requires !StartsWithIgnoreCase(domain + "\\" + account, "uid=")
    ensures ExtractUsername(domain + "\\" + account) == account
  {
    var dn := domain + "\\" + account;
    assert dn[|domain|] == '\\';
    assert forall i :: |domain| < i < |dn| ==> dn[i] == account[i - |domain| - 1];
    assert '@' !in dn by {
      assert forall i :: 0 <= i < |domain| ==> dn[i] == domain[i];
      assert forall i :: 0 <= i < |domain| ==> dn[i] == (domain + account)[i];
      assert forall i :: |domain| < i < |dn| ==> dn[i] == (domain + account)[i - 1];
    }
    assert Text.FindLast(dn, '\\').value == |domain|;
    assert dn[|domain| + 1..] == account;
  }

  /** A name in none of the four forms is passed on as it is. */
  lemma ExtractUnchanged(dn: string)
    requires !StartsWithIgnoreCase(dn, "cn=") && !StartsWithIgnoreCase(dn, "uid=")
    requires '@' !in dn || '=' in dn
    requires '\\' !in dn
    ensures ExtractUsername(dn) == dn
  {
  }

  /** A bind request: the DN and the credentials, as text. */
  datatype BindRequest = BindRequest(dn: string, auth: string)

  datatype BindResponse = BindSuccess | InvalidCredentials(message: string)
                        | OperationsError(message: string)

  /** What the engine did: its `(result, message)`, or the text of the
      exception it raised. */
  datatype EngineRun = Returned(result: ProxyEngine.AuthResult, message: string)
                     | EngineRaised(error: string)

  /** The client IP of a bind: the transport's peer host, or "unknown"
      when it cannot be read. */
  function ClientIp(peer: Option<string>): string
  {
    match peer
    case Some(host) => host
    case None => "unknown"
  }

  /** The engine call made for a bind, in "auto" mode, for the user named
      by the DN, with "LDAP client" as the device and the peer's IP.
      `raised` is an exception escaping from the directory or the API
      client. */
  function RunEngine(e: ProxyEngine.Engine, b: ProxyEngine.Backends, req: BindRequest,
                     peer: Option<string>, raised: Option<string>): EngineRun
  {
    match raised
    case Some(err) => EngineRaised(err)
    case None =>
      var (result, message) := ProxyEngine.Authenticate(e, b, ExtractUsername(req.dn), req.auth,
                                                        "LDAP client", ClientIp(peer), "auto");
      Returned(result, message)
  }

  /** What the server treats as anonymous: no DN or no password. This
      covers RFC 4513's anonymous bind (section 5.1.1), its
      unauthenticated bind (a DN without a password, section 5.1.2), and
      also an empty DN with a password. */
  predicate Anonymous(req: BindRequest)
  {
    req.dn == "" || req.auth == ""
  }

  /** `handle_LDAPBindRequest`. An anonymous bind (no DN or no
      credentials) succeeds before the engine is consulted. */
  function HandleBind(req: BindRequest, run: EngineRun): (r: BindResponse)
  {
    if Anonymous(req) then BindSuccess
    else match run
      case EngineRaised(err) => OperationsError(err)
      case Returned(result, message) =>
        if result == ProxyEngine.Success then BindSuccess else InvalidCredentials(message)
  }

  /** A non-anonymous bind succeeds exactly when the engine reports
      success; a failure carries the engine's message, an exception
      becomes an operations error; an anonymous bind does not depend on
      the engine at all. */
  lemma BindOutcome(req: BindRequest, run: EngineRun, other: EngineRun)
    ensures Anonymous(req) ==> HandleBind(req, run) == HandleBind(req, other) == BindSuccess
    ensures !Anonymous(req) ==>
      (HandleBind(req, run) == BindSuccess <==> run.Returned? && run.result == ProxyEngine.Success)
    ensures !Anonymous(req) && run.Returned? && run.result != ProxyEngine.Success ==>
      HandleBind(req, run) == InvalidCredentials(run.message)
    ensures !Anonymous(req) && run.EngineRaised? ==> HandleBind(req, run) == OperationsError(run.error)
  {
  }

  /** With the engine run in full, a non-anonymous bind succeeds only when
      the directory accepted the password (without an appended factor)
      for the user the DN names, and the second factor was confirmed for
      that same user: a push to them from this peer, or their OTP code. */
  lemma BindNeedsBothFactors(e: ProxyEngine.Engine, b: ProxyEngine.Backends, req: BindRequest,
                             peer: Option<string>)
    requires !Anonymous(req)
    requires HandleBind(req, RunEngine(e, b, req, peer, None)) == BindSuccess
    ensures var user := ExtractUsername(req.dn);
            ProxyEngine.AuthenticatePrimary(e, b, user, ProxyEngine.ParsePassword(req.auth).0).0
    ensures var user := ExtractUsername(req.dn);
            var target := ProxyEngine.PushTarget(user, "LDAP client", ClientIp(peer));
            match ProxyEngine.ChoiceOf(e.isDigit, req.auth, "auto")
            case UsePush =>
              ProxyClient.AuthenticatePush(e.client, b.pushSend(target), b.pushPolls(target))
            case UseOtp(code) => ProxyClient.VerifyOtp(b.otpCheck(user, code))
            case NoFactor => false
  {
    ProxyEngine.AuthenticateOutcome(e, b, ExtractUsername(req.dn), req.auth, "LDAP client",
                                    ClientIp(peer), "auto");
  }

  /** `handle_LDAPSearchRequest`: an empty, successful search. */
  datatype SearchDone = SearchDone(resultCode: int, matchedDN: string, errorMessage: string)

  function HandleSearch(): (r: SearchDone)
    ensures r.resultCode == 0 && r.matchedDN == "" && r.errorMessage == ""
  {
    SearchDone(0, "", "")
  }
}
