/** The PAM module's entry point, `pam_sm_authenticate`: who is asked
    for a second factor, which factor, and the PAM code that results.

    Everything the module learns from outside is a field of `Env`: the
    user name PAM reports, the configuration file's lines, the group
    database, the remote host items, the host name, the user's replies
    to the two prompts, and the transports of the API requests. */
module PamAuth {
  import Text
  import PamConfig
  import PamApi
  import opened Wrappers
  import opened CString

  // Linux-PAM's return codes.
  const PamSuccess := 0
  const PamAuthErr := 7
  const PamUserUnknown := 10
  const PamConvErr := 19

  const MaxOtpLength := 16
  const ChoiceSize := 8
  const ClientIpSize := 64

  // ---------------------------------------------------------------------
  // The conversation

  /** `prompt_user`: a failed conversation gives PAM_CONV_ERR and leaves
      the buffer alone; otherwise `strncpy` of `resp_len - 1` characters
      and a NUL in the last place. */
  method PromptUser(reply: Option<string>, response: array<char>) returns (rc: int)
    requires response.Length >= 1
    requires reply.Some? ==> '\0' !in reply.value
    modifies response
    ensures rc == PamSuccess <==> reply.Some?
    ensures rc != PamSuccess ==> rc == PamConvErr && response[..] == old(response[..])
    ensures reply.Some? ==> CStr(response[..], 0) == Fit(reply.value, response.Length)
    ensures reply.Some? ==> forall i :: |reply.value| <= i < response.Length ==> response[i] == '\0'
  {
    if reply.None? {
      return PamConvErr;
    }
    var s := reply.value;
    var n := response.Length - 1;
    var i := 0;
    while i < n
      invariant i <= n
      invariant forall j :: 0 <= j < i ==> response[j] == if j < |s| then s[j] else '\0'
    {
      response[i] := if i < |s| then s[i] else '\0';
      i := i + 1;
    }
    response[n] := '\0';
    var copied := if |s| < n then |s| else n;
    assert response[..copied] == s[..copied];
    assert forall j :: 0 <= j < copied ==> s[..copied][j] != '\0';
    CStrIs(response[..], s[..copied]);
    assert s[..copied] == Fit(s, response.Length);
    return PamSuccess;
  }

  /** The method a reply to the choice prompt picks: 1 (push) for a
      leading '1', 2 (OTP) for a leading '2', -1 otherwise or when the
      conversation fails. */
  function ChoiceOf(reply: Option<string>): int
  {
    if reply.None? || |reply.value| == 0 then -1
    else if reply.value[0] == '1' then 1
    else if reply.value[0] == '2' then 2
    else -1
  }

  /** `prompt_auth_choice`: the reply goes into an 8-character buffer
      and its first character decides. */
  method PromptAuthChoice(reply: Option<string>) returns (choice: int)
    requires reply.Some? ==> '\0' !in reply.value
    ensures choice == ChoiceOf(reply)
    ensures choice == 1 <==> reply.Some? && |reply.value| > 0 && reply.value[0] == '1'
    ensures choice == 2 <==> reply.Some? && |reply.value| > 0 && reply.value[0] == '2'
    ensures choice == 1 || choice == 2 || choice == -1
  {
    var buffer := new char[ChoiceSize];
    var ret := PromptUser(reply, buffer);
    if ret != PamSuccess {
      return -1;
    }
    if reply.value != [] {
      assert CStr(buffer[..], 0)[0] == reply.value[0];
    }
    if buffer[0] == '1' {
      return 1;
    } else if buffer[0] == '2' {
      return 2;
    }
    return -1;
  }

  /** `memset(otp_code, 0, sizeof(otp_code))`. */
  method Clear(buf: array<char>)
    modifies buf
    ensures forall i :: 0 <= i < buf.Length ==> buf[i] == '\0'
  {
    forall i | 0 <= i < buf.Length {
      buf[i] := '\0';
    }
  }

  // ---------------------------------------------------------------------
  // The client's address

  /** `get_remote_host`: a non-empty PAM_RHOST; else the first field of
      a non-empty SSH_CONNECTION when a space ends it within 63
      characters; else "unknown". */
  function RemoteHost(rhost: Option<string>, sshConnection: Option<string>): string
  {
    if rhost.Some? && rhost.value != [] then rhost.value
    else if sshConnection.Some? && sshConnection.value != [] then
      var space := Text.Find(sshConnection.value, ' ');
      if space < |sshConnection.value| && space < ClientIpSize then sshConnection.value[..space]
      else "unknown"
    else "unknown"
  }

  /** The host reported is empty only for an SSH_CONNECTION that starts
      with a space; one taken from SSH_CONNECTION is a space-free prefix of
      it that fits the 64-character buffer. */
  lemma RemoteHostShape(rhost: Option<string>, sshConnection: Option<string>)
    ensures RemoteHost(rhost, sshConnection) == [] ==>
              sshConnection.Some? && sshConnection.value != [] && sshConnection.value[0] == ' '
    ensures (rhost.None? || rhost.value == []) && sshConnection.Some?
            && RemoteHost(rhost, sshConnection) != "unknown"
            ==> var host := RemoteHost(rhost, sshConnection);
                && |host| < ClientIpSize && ' ' !in host
                && sshConnection.value[..|host| + 1] == host + " "
  {
    if (rhost.None? || rhost.value == []) && sshConnection.Some? && sshConnection.value != [] {
      var conn := sshConnection.value;
      var space := Text.Find(conn, ' ');
      if space < |conn| && space < ClientIpSize {
        var host := conn[..space];
        assert RemoteHost(rhost, sshConnection) == host;
        assert conn[..space + 1] == host + " ";
        assert forall j :: 0 <= j < |host| ==> host[j] != ' ';
      }
    }
  }

  /** `get_remote_host`, with the copy into its static 64-character
      buffer. */
  method GetRemoteHost(rhost: Option<string>, sshConnection: Option<string>) returns (host: string)
    requires sshConnection.Some? ==> '\0' !in sshConnection.value
    ensures host == RemoteHost(rhost, sshConnection)
  {
    if rhost.Some? && rhost.value != [] {
      return rhost.value;
    }
    if sshConnection.Some? && sshConnection.value != [] {
      var conn := sshConnection.value;
      var space := PamApi.Scan(conn, 0, ' ');
      assert conn[0..] == conn;
      assert space == Text.Find(conn, ' ');
      if space < |conn| && space < ClientIpSize {
        var clientIp := new char[ClientIpSize];
        forall i | 0 <= i < space {
          clientIp[i] := conn[i];
        }
        clientIp[space] := '\0';
        assert clientIp[..space] == conn[..space];
        assert forall j :: 0 <= j < space ==> conn[..space][j] != '\0';
        CStrIs(clientIp[..], conn[..space]);
        host := CStr(clientIp[..], 0);
        assert host == conn[..space];
        assert RemoteHost(rhost, sshConnection) == conn[..space];
        return;
      }
    }
    return "unknown";
  }

  // ---------------------------------------------------------------------
  // The decision

  /** `auth_methods & AUTH_METHOD_PUSH` and `& AUTH_METHOD_OTP`: bits 0
      and 1 of the two's-complement value. */
  predicate HasPush(methods: int) { methods % 2 == 1 }
  predicate HasOtp(methods: int) { (methods / 2) % 2 == 1 }

  /** The three values the configuration can hold set the bits their
      names say, so a loaded configuration always offers a method. */
  lemma MethodBits(c: PamConfig.Settings)
    ensures HasPush(PamConfig.AuthMethodPush) && !HasOtp(PamConfig.AuthMethodPush)
    ensures !HasPush(PamConfig.AuthMethodOtp) && HasOtp(PamConfig.AuthMethodOtp)
    ensures HasPush(PamConfig.AuthMethodBoth) && HasOtp(PamConfig.AuthMethodBoth)
    ensures PamConfig.SettingsOk(c) ==> HasPush(c.authMethods) || HasOtp(c.authMethods)
  {
  }

  /** The method tried first: 1 push, 2 OTP, 0 none. With both, the
      user's choice, where an invalid one means OTP. */
  function FirstMethod(methods: int, choiceReply: Option<string>): (r: int)
    ensures HasPush(methods) && HasOtp(methods) ==>
              r == (if ChoiceOf(choiceReply) == 1 then 1 else 2)
    ensures HasPush(methods) && !HasOtp(methods) ==> r == 1
    ensures !HasPush(methods) && HasOtp(methods) ==> r == 2
    ensures !HasPush(methods) && !HasOtp(methods) ==> r == 0
  {
    if HasPush(methods) && HasOtp(methods) then
      var choice := ChoiceOf(choiceReply);
      if choice == -1 then 2 else choice
    else if HasPush(methods) then 1
    else if HasOtp(methods) then 2
    else 0
  }

  /** The API calls the module makes. */
  datatype ApiCall = SendPush | WaitForPush | VerifyOtp

  datatype Outcome = Outcome(rc: int, calls: seq<ApiCall>)

  /** What the module learns from outside. */
  datatype Env = Env(
    username: Option<string>,                  // pam_get_user
    configFile: Option<seq<string>>,           // the configuration file's lines
    userGroups: Option<seq<nat>>,              // getgrouplist
    groupId: string -> Option<nat>,            // getgrnam
    rhost: Option<string>,                     // PAM_RHOST
    sshConnection: Option<string>,             // SSH_CONNECTION
    hostname: Option<string>,                  // gethostname
    choiceReply: Option<string>,               // reply to "Select option (1 or 2): "
    otpReply: Option<string>,                  // reply to "Verification code: "
    pushTransport: PamApi.Transport,           // api_send_push
    polls: nat -> PamApi.Transport,            // api_wait_for_push's checks
    read: PamApi.StatusReader,
    otpTransport: PamApi.Transport)            // api_verify_otp

  /** C strings carry no NUL, and the transports are sound. */
  ghost predicate Sound(env: Env)
  {
    && (env.choiceReply.Some? ==> '\0' !in env.choiceReply.value)
    && (env.otpReply.Some? ==> '\0' !in env.otpReply.value)
    && (env.sshConnection.Some? ==> '\0' !in env.sshConnection.value)
    && PamApi.Sound(env.pushTransport) && PamApi.Sound(env.otpTransport)
    && forall i: nat :: PamApi.Sound(env.polls(i))
  }

  function Loaded(env: Env): PamConfig.Settings
    requires env.configFile.Some?
  {
    PamConfig.ApplyFrom(PamConfig.Defaults, env.configFile.value, 0)
  }

  /** `config_load` succeeds: the file is there and names both keys. */
  predicate ConfigLoads(env: Env)
  {
    env.configFile.Some? && Loaded(env).integrationKey != "" && Loaded(env).secretKey != ""
  }

  /** The user needs no second factor. */
  predicate Exempt(env: Env, c: PamConfig.Settings, username: string)
  {
    PamConfig.Excluded(c.excludeUsers, username)
    || !PamConfig.InRequiredGroups(c.requireGroups, env.userGroups, env.groupId)
  }

  function HostName(env: Env): string
  {
    if env.hostname.Some? then env.hostname.value else "unknown"
  }

  /** The answer to the push request, when it names an id that fits the
      128-character buffer. */
  function PushId(env: Env, c: PamConfig.Settings, username: string): Option<string>
  {
    var answer := PamApi.PushAnswer(c, username, Some(RemoteHost(env.rhost, env.sshConnection)),
                                    HostName(env), env.pushTransport);
    if answer.Some? && PamApi.RequestIdIn(answer.value).Some?
       && |PamApi.RequestIdIn(answer.value).value| < PamApi.MaxRequestId
    then PamApi.RequestIdIn(answer.value)
    else None
  }

  /** The push is sent and then approved within the configured timeout. */
  predicate PushApproved(env: Env, c: PamConfig.Settings, username: string)
  {
    var id := PushId(env, c, username);
    id.Some? && PamApi.WaitFrom(PamApi.Poll(c, id.value, env.polls, env.read).Statuses(), 0, c.timeout)
                == PamApi.PushApproved
  }

  /** The OTP step: a failed prompt ends in PAM_AUTH_ERR with no call; a
      reply is cut to 15 characters and verified. */
  function OtpStep(env: Env, c: PamConfig.Settings, username: string, before: seq<ApiCall>): Outcome
  {
    if env.otpReply.None? then Outcome(PamAuthErr, before)
    else
      var accepted := PamApi.OtpAccepted(c, username, Fit(env.otpReply.value, MaxOtpLength),
                                         env.otpTransport);
      Outcome(if accepted then PamSuccess else PamAuthErr, before + [VerifyOtp])
  }

  /** The challenge for a user who needs one. */
  function Challenge(env: Env, c: PamConfig.Settings, username: string): Outcome
  {
    var first := FirstMethod(c.authMethods, env.choiceReply);
    if first == 0 then Outcome(PamAuthErr, [])
    else if first == 1 then PushFirst(env, c, username)
    else OtpStep(env, c, username, [])
  }

  /** Push first: success on approval, else OTP when it is configured. */
  function PushFirst(env: Env, c: PamConfig.Settings, username: string): Outcome
  {
    var pushCalls := if PushId(env, c, username).Some? then [SendPush, WaitForPush] else [SendPush];
    if PushApproved(env, c, username) then Outcome(PamSuccess, pushCalls)
    else if HasOtp(c.authMethods) then OtpStep(env, c, username, pushCalls)
    else Outcome(PamAuthErr, pushCalls)
  }

  /** `pam_sm_authenticate` as a whole. */
  function Run(env: Env): Outcome
  {
    if env.username.None? then Outcome(PamUserUnknown, [])
    else if !ConfigLoads(env) then Outcome(PamAuthErr, [])
    else if Exempt(env, Loaded(env), env.username.value) then Outcome(PamSuccess, [])
    else Challenge(env, Loaded(env), env.username.value)
  }

  /** The push step of `pam_sm_authenticate`: send, then wait. */
  method PushStep(env: Env, c: PamConfig.Settings, username: string, host: string, hostname: string)
    returns (approved: bool, calls: seq<ApiCall>)
    requires Sound(env)
    requires host == RemoteHost(env.rhost, env.sshConnection) && hostname == HostName(env)
    ensures approved == PushApproved(env, c, username)
    ensures calls == if PushId(env, c, username).Some? then [SendPush, WaitForPush] else [SendPush]
  {
    var requestId := new char[PamApi.MaxRequestId];
    var sent := PamApi.SendPush(c, username, Some(host), hostname, requestId, env.pushTransport);
    calls := [SendPush];
    if sent != 0 {
      return false, calls;
    }
    var id := CStr(requestId[..], 0);
    var poll := PamApi.Poll(c, id, env.polls, env.read);
    PamApi.StatusesReport(poll);
    var pushResult, checks := PamApi.WaitForPush(poll, c.timeout, poll.Statuses());
    calls := calls + [WaitForPush];
    approved := pushResult == PamApi.PushApproved;
  }

  /** The OTP step of `pam_sm_authenticate`: prompt, verify, clear the
      code. */
  method OtpPrompt(env: Env, c: PamConfig.Settings, username: string, otpCode: array<char>,
                   before: seq<ApiCall>) returns (rc: int, calls: seq<ApiCall>)
    requires Sound(env) && otpCode.Length == MaxOtpLength
    modifies otpCode
    ensures Outcome(rc, calls) == OtpStep(env, c, username, before)
    ensures VerifyOtp in calls && VerifyOtp !in before ==>
              forall i :: 0 <= i < otpCode.Length ==> otpCode[i] == '\0'
  {
    var ret := PromptUser(env.otpReply, otpCode);
    if ret != PamSuccess {
      return PamAuthErr, before;
    }
    var code := CStr(otpCode[..], 0);
    var verified := PamApi.VerifyOtp(c, username, code, env.otpTransport);
    calls := before + [VerifyOtp];
    Clear(otpCode);
    rc := if verified == 0 then PamSuccess else PamAuthErr;
  }

  /** The method selection of `pam_sm_authenticate`: ask only when both
      are configured, and take OTP for an invalid answer. */
  method ChooseMethod(methods: int, choiceReply: Option<string>) returns (authChoice: int)
    requires choiceReply.Some? ==> '\0' !in choiceReply.value
    ensures authChoice == FirstMethod(methods, choiceReply)
  {
    var hasPush := HasPush(methods);
    var hasOtp := HasOtp(methods);
    if hasPush && hasOtp {
      authChoice := PromptAuthChoice(choiceReply);
      if authChoice == -1 {
        authChoice := 2;
      }
    } else if hasPush {
      authChoice := 1;
    } else if hasOtp {
      authChoice := 2;
    } else {
      authChoice := 0;
    }
  }

  /** Push, and on any outcome but approval fall back to OTP when it is
      configured. */
  method PushThenOtp(env: Env, config: PamConfig.Settings, username: string, host: string,
                     hostname: string, otpCode: array<char>) returns (rc: int, calls: seq<ApiCall>)
    requires Sound(env) && otpCode.Length == MaxOtpLength
    requires host == RemoteHost(env.rhost, env.sshConnection) && hostname == HostName(env)
    modifies otpCode
    ensures Outcome(rc, calls) == PushFirst(env, config, username)
    ensures VerifyOtp in calls ==> forall i :: 0 <= i < otpCode.Length ==> otpCode[i] == '\0'
  {
    var approved;
    approved, calls := PushStep(env, config, username, host, hostname);
    if approved {
      return PamSuccess, calls;
    }
    if HasOtp(config.authMethods) {
      rc, calls := OtpPrompt(env, config, username, otpCode, calls);
    } else {
      rc := PamAuthErr;
    }
  }

  /** The part of `pam_sm_authenticate` after the exemptions: choose a
      method, push with fallback to OTP, or OTP. */
  method ChallengeUser(env: Env, config: PamConfig.Settings, username: string, otpCode: array<char>)
    returns (rc: int, calls: seq<ApiCall>)
    requires Sound(env) && otpCode.Length == MaxOtpLength
    modifies otpCode
    ensures Outcome(rc, calls) == Challenge(env, config, username)
    ensures VerifyOtp in calls ==> forall i :: 0 <= i < otpCode.Length ==> otpCode[i] == '\0'
  {
    var host := GetRemoteHost(env.rhost, env.sshConnection);
    var hostname := if env.hostname.Some? then env.hostname.value else "unknown";
    var authChoice := ChooseMethod(config.authMethods, env.choiceReply);
    if authChoice == 0 {
      return PamAuthErr, [];
    }
    if authChoice == 1 {
      rc, calls := PushThenOtp(env, config, username, host, hostname, otpCode);
    } else {
      rc, calls := OtpPrompt(env, config, username, otpCode, []);
    }
  }

  /** `pam_sm_authenticate`. `otpCode` is its 16-character OTP buffer. */
  method Authenticate(env: Env, otpCode: array<char>) returns (rc: int, calls: seq<ApiCall>)
    requires Sound(env) && otpCode.Length == MaxOtpLength
    modifies otpCode
    ensures Outcome(rc, calls) == Run(env)
    ensures VerifyOtp in calls ==> forall i :: 0 <= i < otpCode.Length ==> otpCode[i] == '\0'
  {
    if env.username.None? {
      return PamUserUnknown, [];
    }
    var username := env.username.value;
    var loadRc, config := PamConfig.Load(env.configFile);
    if loadRc != 0 {
      return PamAuthErr, [];
    }
    assert config == Loaded(env);
    var excluded := PamConfig.IsUserExcluded(config, username);
    if excluded {
      return PamSuccess, [];
    }
    var member := PamConfig.IsUserInRequiredGroup(config, env.userGroups, env.groupId);
    if !member {
      return PamSuccess, [];
    }
    rc, calls := ChallengeUser(env, config, username, otpCode);
  }

  // ---------------------------------------------------------------------
  // What the decision guarantees

  /** No user name gives PAM_USER_UNKNOWN; a configuration that does not
      load gives PAM_AUTH_ERR; both before any API call. */
  lemma EarlyFailures(env: Env)
    ensures env.username.None? ==> Run(env) == Outcome(PamUserUnknown, [])
    ensures env.username.Some? && !ConfigLoads(env) ==> Run(env) == Outcome(PamAuthErr, [])
    ensures env.configFile.None? ==> Run(env).rc != PamSuccess
  {
  }

  /** An excluded user, or one outside the required groups, is let in
      before any API call. */
  lemma ExemptUsersSkipApi(env: Env)
    requires env.username.Some? && ConfigLoads(env)
    requires PamConfig.Excluded(Loaded(env).excludeUsers, env.username.value)
             || !PamConfig.InRequiredGroups(Loaded(env).requireGroups, env.userGroups, env.groupId)
    ensures Run(env) == Outcome(PamSuccess, [])
  {
  }

  /** Apart from the exemptions, PAM_SUCCESS needs an approved push or an
      accepted OTP. */
  lemma SuccessNeedsSecondFactor(env: Env)
    requires Run(env).rc == PamSuccess
    ensures env.username.Some? && ConfigLoads(env)
    ensures var c := Loaded(env);
            var user := env.username.value;
            || Exempt(env, c, user)
            || PushApproved(env, c, user)
            || (env.otpReply.Some? &&
                PamApi.OtpAccepted(c, user, Fit(env.otpReply.value, MaxOtpLength), env.otpTransport))
  {
  }

  /** A push that is not approved falls back to OTP exactly when OTP is
      enabled; otherwise the result is PAM_AUTH_ERR. */
  lemma PushFallback(env: Env)
    requires env.username.Some? && ConfigLoads(env)
    requires !Exempt(env, Loaded(env), env.username.value)
    requires FirstMethod(Loaded(env).authMethods, env.choiceReply) == 1
    requires !PushApproved(env, Loaded(env), env.username.value)
    ensures var c := Loaded(env);
            var user := env.username.value;
            var pushCalls := if PushId(env, c, user).Some? then [SendPush, WaitForPush] else [SendPush];
            Run(env) == if HasOtp(c.authMethods) then OtpStep(env, c, user, pushCalls)
                        else Outcome(PamAuthErr, pushCalls)
  {
  }

  /** Every run makes at most one push, one wait and one OTP check, in
      that order, and waits only after a push was sent. */
  lemma CallOrder(env: Env)
    ensures Run(env).calls in {[], [SendPush], [SendPush, WaitForPush], [VerifyOtp],
                               [SendPush, VerifyOtp], [SendPush, WaitForPush, VerifyOtp]}
  {
    assert [] + [VerifyOtp] == [VerifyOtp];
    assert [SendPush] + [VerifyOtp] == [SendPush, VerifyOtp];
    assert [SendPush, WaitForPush] + [VerifyOtp] == [SendPush, WaitForPush, VerifyOtp];
  }
}
