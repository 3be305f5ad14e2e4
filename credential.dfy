/** The Windows credential `CCredential`: the decision chain of `Connect`,
    the outcome of `GetSerialization`, the password-change machine of
    `ReportResult`, `SetDeselected` and the push callback.

    The credential's state is its `_config` flags and strings, `_piStatus`,
    the two function-local statics of the method-choice dialog, and the
    registry values it writes (the SID history, the last user and its
    timestamp). Everything the operating system answers (computer name,
    domain join, SID lookups, sessions, the clock, the offline user) is an
    `Os` value, the MultiOTP client is a `Backend` oracle, and the dialog
    and the credential packers are oracles too. */
module Credential {
  import Text
  import WorldPostaApi
  import opened MultiOtp
  import opened Wrappers

  // ---------------------------------------------------------------------
  // State

  /** `_config->credential`: what the user typed and the password-change
      state. */
  datatype Credentials = Credentials(
    username: string, domain: string, otp: string, password: string,
    newPassword1: string, newPassword2: string,
    mustChange: bool, changed: bool)

  /** The flags that carry a logon from one call to the next. */
  datatype Flags = Flags(
    bypass: bool, pushOk: bool, doAutoLogon: bool,
    isSecondStep: bool, twoStepHideOtp: bool,
    clearFields: bool, userCanceled: bool)

  /** The MultiOTP settings read from the registry; no method changes
      them. */
  datatype Options = Options(
    sendEmptyPassword: bool, sendPassword: bool,
    without2fa: bool, displayLocked: bool, timeoutUnlock: int, displayLastUser: bool)

  /** The parts of `_config` that `CCredential` reads or writes: the
      excluded account, the credential, the text of the user name field,
      the step flags, the options, and `defaultOTPFailureText` as the error
      code whose message it holds. */
  datatype Config = Config(
    excludedAccount: string, credential: Credentials, usernameField: string,
    step: Flags, options: Options, failureCode: int)

  /** The registry values the credential writes: the `history` table of
      SID to minutes, `LAST_USER_AUTHENTICATED` and
      `LAST_USER_TIMESTAMP`. */
  datatype Store = Store(history: map<string, int>, lastUser: string, lastUserTimestamp: int)

  /** A snapshot of everything the credential's methods change. */
  datatype State = State(config: Config, piStatus: Hresult, store: Store,
                         pushStatic: Hresult, otpStatic: Hresult)

  /** `NetGetJoinInformation`: failed, joined to a domain, or anything
      else (workgroup, unjoined). */
  datatype Join = JoinFailed | DomainJoined | NotDomainJoined

  /** One entry of `WTSEnumerateSessions`: whether it is active and the
      user name `WTSQuerySessionInformation` gives for it. */
  datatype WtsSession = WtsSession(active: bool, user: string)

  /** What the operating system answers during one call:
      `GetComputerName`; `NetGetJoinInformation`; `SplitDomainAndUsername`
      (`None` when it fails); `DsGetDcNameW`'s flat domain name (`None` when
      it fails); the string SID of an account name (`None` when `getSid`
      fails); `WTSEnumerateSessions` (`None` when it fails);
      `minutesSinceEpoch`; the `currentOfflineUser` value with the length
      the registry read reports, and what `SplitDomainAndUsername` makes of
      it. */
  datatype Os = Os(
    computerName: string, computerNameOk: bool, join: Join,
    split: string -> Option<(string, string)>,
    flatName: string -> Option<string>,
    sidOf: string -> Option<string>,
    sessions: Option<seq<WtsSession>>,
    now: int,
    offlineUserLen: int, offlineUser: string, offlineSplit: (string, string))

  /** The MultiOTP client as `Connect` uses it for the user being logged
      on: `userTokenType`, and `validateCheck` with its error code for a
      given code. */
  datatype Backend = Backend(tokenType: int, validate: string -> (Hresult, int))

  /** How a step of `Connect` ends: go on, return `S_OK`, or leave by a
      C++ exception. */
  datatype Flow = Continue | Done | Thrown

  datatype Step = Step(flow: Flow, state: State)


  // ---------------------------------------------------------------------
  // User names and the SID history

  /** `cleanUsername`: drop everything through the first '\', then
      everything from the first '@'; the case is kept. */
  function CleanUsername(username: string): (r: string)
    ensures '@' !in r
    ensures |r| <= |username|
  {
    Text.Before(WorldPostaApi.AfterDomain(username), '@')
  }

  /** The client's `normalizeUsername` is `cleanUsername` lower-cased. */
  lemma NormalizeIsLowerClean(username: string)
    ensures WorldPostaApi.NormalizeUsername(username) == Text.Lower(CleanUsername(username))
  {
  }

  /** A domain part is dropped and the case kept. */
  lemma CleanDomain(domain: string, user: string)
    requires '\\' !in domain && '@' !in user
    ensures CleanUsername(domain + "\\" + user) == user
  {
    WorldPostaApi.AfterDomainOf(domain, user);
    assert Text.Before(user, '@') == user;
  }

  /** `getSidFromUsername`: the string SID of the cleaned name, "" when
      the lookup fails. */
  function UserSid(usernameField: string, os: Os): string
  {
    match os.sidOf(CleanUsername(usernameField))
    case Some(sid) => sid
    case None => ""
  }

  const TwoTo32: int := 0x1_0000_0000

  /** The value `readKeyValueInMultiOTPRegistryInteger` gives for a SID:
      the stored minutes as a DWORD, 0 when absent. */
  function StoredMinutes(store: Store, sid: string): (r: int)
    ensures 0 <= r < TwoTo32
  {
    if sid in store.history then store.history[sid] % TwoTo32 else 0
  }

  /** `hasloggedInRecently`: with a positive timeout, the DWORD difference
      between now and the stored minutes is below the timeout. */
  predicate HasLoggedInRecently(store: Store, timeout: int, now: int, sid: string)
  {
    timeout > 0 && (now - StoredMinutes(store, sid)) % TwoTo32 < timeout
  }

  /** No timeout, no shortcut. With stored minutes not after now (and a
      clock within DWORD range), recent means fewer than `timeout` minutes
      ago; stored minutes in the future wrap around and count as recent
      only when the timeout is above 2^32 minus the gap. */
  lemma RecentMeaning(store: Store, timeout: int, now: int, sid: string)
    ensures timeout <= 0 ==> !HasLoggedInRecently(store, timeout, now, sid)
    ensures var m := StoredMinutes(store, sid);
            0 < timeout && m <= now < TwoTo32 ==>
              (HasLoggedInRecently(store, timeout, now, sid) <==> now - m < timeout)
    ensures var m := StoredMinutes(store, sid);
            0 < timeout && 0 <= now < m ==>
              (HasLoggedInRecently(store, timeout, now, sid) <==> TwoTo32 - (m - now) < timeout)
  {
    var m := StoredMinutes(store, sid);
    if 0 <= now < m {
      assert (now - m) % TwoTo32 == TwoTo32 - (m - now);
    }
  }

  /** `storeLastConnectedUserIfNeeded`: with the last-user display or the
      unlock timeout on, the SID of the cleaned user name field (the key ""
      when the lookup fails) gets the current minutes, the field's text is
      stored, and the timestamp too when the timeout is on; otherwise the
      stored user name is cleared. */
  function StoreLastUser(s: State, os: Os): (r: State)
    ensures r == s.(store := r.store)
  {
    var c := s.config;
    if c.options.displayLastUser || c.options.timeoutUnlock > 0 then
      var sid := UserSid(c.usernameField, os);
      var timestamp := if c.options.timeoutUnlock > 0 then os.now else s.store.lastUserTimestamp;
      s.(store := Store(s.store.history[sid := os.now], c.usernameField, timestamp))
    else
      s.(store := s.store.(lastUser := ""))
  }

  /** Storing then asking at the same minute: the user counts as having
      logged in recently whenever the timeout is on and the clock is a
      valid DWORD. */
  lemma StoreThenRecent(s: State, os: Os)
    requires s.config.options.timeoutUnlock > 0 && 0 <= os.now < TwoTo32
    ensures var r := StoreLastUser(s, os);
            && HasLoggedInRecently(r.store, s.config.options.timeoutUnlock, os.now,
                                   UserSid(s.config.usernameField, os))
            && r.store.lastUser == s.config.usernameField
            && r.store.lastUserTimestamp == os.now
  {
    var r := StoreLastUser(s, os);
    var sid := UserSid(s.config.usernameField, os);
    assert r.store.history[sid] == os.now;
    assert StoredMinutes(r.store, sid) == os.now;
  }

  /** With both the display and the timeout off, nothing but the cleared
      user name is written. */
  lemma StoreDisabled(s: State, os: Os)
    requires !s.config.options.displayLastUser && s.config.options.timeoutUnlock <= 0
    ensures StoreLastUser(s, os).store == s.store.(lastUser := "")
  {
  }

  // ---------------------------------------------------------------------
  // Connect: the excluded account

  /** `find_first_of(L".\\") == 0`. */
  predicate StartsWithDotOrSlash(s: string)
  {
    |s| > 0 && (s[0] == '.' || s[0] == '\\')
  }

  /** The ".\" rewrite: a name starting with '.' or '\' gets its first two
      characters replaced by the computer name and '\' when the computer
      name is known; `substr(2)` of a one-character name throws
      (`None`). */
  function LocalRewrite(name: string, os: Os): (r: Option<string>)
    ensures r.None? <==> StartsWithDotOrSlash(name) && os.computerNameOk && |name| < 2
    ensures r.Some? && !(StartsWithDotOrSlash(name) && os.computerNameOk) ==> r.value == name
  {
    if StartsWithDotOrSlash(name) && os.computerNameOk then
      if |name| < 2 then None else Some(os.computerName + "\\" + name[2..])
    else Some(name)
  }

  /** "domain\user", or just "user" with no domain. */
  function Qualified(c: Credentials): string
  {
    (if c.domain != "" then c.domain + "\\" else "") + c.username
  }

  /** `toUpperCase(a) == toUpperCase(b)`. */
  predicate SameAccount(a: string, b: string)
  {
    Text.Upper(a) == Text.Upper(b)
  }

  /** A user with no second factor to give: success is simulated and the
      user stored. */
  function Exempt(s: State, os: Os): (r: Step)
    ensures r.flow == Done && r.state.piStatus == PiAuthSuccess
    ensures r.state == s.(piStatus := PiAuthSuccess, store := r.state.store)
  {
    Step(Done, StoreLastUser(s.(piStatus := PiAuthSuccess), os))
  }

  /** The name compared after `NetGetJoinInformation`, if any: the
      computer-qualified user name off a domain; on a domain, with a domain
      typed, the flat domain name (or the domain as split, when
      `DsGetDcNameW` fails) with the user name. */
  function JoinName(c: Credentials, toCompare: string, os: Os): Option<string>
  {
    match os.join
    case JoinFailed => None
    case NotDomainJoined => Some(os.computerName + "\\" + c.username)
    case DomainJoined =>
      if c.domain == "" then None
      else match os.split(toCompare)
        case None => None
        case Some(du) =>
          var domainName := match os.flatName(du.0) case Some(f) => f case None => du.0;
          Some(domainName + "\\" + du.1)
  }

  /** The typed account, rewritten, is the excluded one, directly or by
      its join-qualified name. */
  predicate IsExcluded(c: Config, toCompare: string, os: Os)
  {
    || SameAccount(toCompare, c.excludedAccount)
    || (JoinName(c.credential, toCompare, os).Some?
        && SameAccount(JoinName(c.credential, toCompare, os).value, c.excludedAccount))
  }

  /** The comparison once the excluded account is rewritten. */
  function CompareExcluded(s: State, os: Os): (r: Step)
    ensures r.flow != Done ==> r.state == s
    ensures r.flow == Thrown <==> LocalRewrite(Qualified(s.config.credential), os).None?
    ensures r.flow == Done <==>
              LocalRewrite(Qualified(s.config.credential), os).Some?
              && IsExcluded(s.config, LocalRewrite(Qualified(s.config.credential), os).value, os)
    ensures r.flow == Done ==> r == Exempt(s, os)
  {
    match LocalRewrite(Qualified(s.config.credential), os)
    case None => Step(Thrown, s)
    case Some(toCompare) =>
      if IsExcluded(s.config, toCompare, os) then Exempt(s, os) else Step(Continue, s)
  }

  /** The excluded-account check of `Connect`: the rewritten excluded
      account is written back to the configuration. */
  function ExcludedStep(s: State, os: Os): (r: Step)
    ensures r.flow != Done ==> r.state == s.(config := r.state.config)
    ensures r.state.config == s.config.(excludedAccount := r.state.config.excludedAccount)
    ensures r.state.pushStatic == s.pushStatic && r.state.otpStatic == s.otpStatic
    ensures r.flow == Done ==> r.state.piStatus == PiAuthSuccess
    ensures s.config.excludedAccount == "" ==> r == Step(Continue, s)
  {
    var c := s.config;
    if c.excludedAccount == "" then Step(Continue, s)
    else match LocalRewrite(c.excludedAccount, os)
      case None => Step(Thrown, s)
      case Some(excluded) => CompareExcluded(s.(config := c.(excludedAccount := excluded)), os)
  }

  /** An excluded account "DOMAIN\user" matches the same account typed in
      another case: `Connect` ends with success before asking the
      backend anything. */
  lemma ExcludedMatch(s: State, os: Os, be: Backend, be2: Backend)
    requires s.config.excludedAccount != "" && s.config.credential.domain != ""
    requires !StartsWithDotOrSlash(s.config.excludedAccount)
    requires !StartsWithDotOrSlash(s.config.credential.domain)
    requires SameAccount(Qualified(s.config.credential), s.config.excludedAccount)
    ensures ConnectSpec(s, os, be).flow == Done
    ensures ConnectSpec(s, os, be).state.piStatus == PiAuthSuccess
    ensures ConnectSpec(s, os, be) == ConnectSpec(s, os, be2)
  {
    var q := Qualified(s.config.credential);
    assert q[0] == s.config.credential.domain[0];
    assert s.(config := s.config.(excludedAccount := s.config.excludedAccount)) == s;
    assert CompareExcluded(s, os).flow == Done;
  }

  /** An excluded account that starts with ".\" stands for the local
      machine: it is rewritten in place to "<computer name>\rest". */
  lemma LocalExcludedRewritten(s: State, os: Os, rest: string)
    requires s.config.excludedAccount == ".\\" + rest && os.computerNameOk
    ensures ExcludedStep(s, os).state.config.excludedAccount == os.computerName + "\\" + rest
  {
    assert (".\\" + rest)[2..] == rest;
    var e := os.computerName + "\\" + rest;
    assert LocalRewrite(s.config.excludedAccount, os) == Some(e);
    var s1 := s.(config := s.config.(excludedAccount := e));
    var r := CompareExcluded(s1, os);
    assert r.state.config.excludedAccount == e;
  }

  /** A one-character user name "." with no domain makes `substr(2)` throw
      out of `Connect` when an excluded account is set and the computer
      name is known. */
  lemma DotUserThrows(s: State, os: Os, be: Backend)
    requires s.config.excludedAccount != "" && !StartsWithDotOrSlash(s.config.excludedAccount)
    requires s.config.credential.domain == "" && s.config.credential.username == "."
    requires os.computerNameOk
    ensures ConnectSpec(s, os, be).flow == Thrown
  {
    assert Qualified(s.config.credential) == ".";
    assert s.(config := s.config.(excludedAccount := s.config.excludedAccount)) == s;
  }

  // ---------------------------------------------------------------------
  // Connect: bypass, continuity and the token type

  /** The bypass check: bypass with a successful push returns at once;
      bypass alone is cleared. */
  function BypassStep(s: State): (r: Step)
    ensures r.state == s.(config := s.config.(step := s.config.step.(bypass := false)))
    ensures r.flow == Done <==> s.config.step.bypass && s.config.step.pushOk
    ensures r.flow != Thrown
  {
    var f := s.config.step;
    if f.bypass && f.pushOk then Step(Done, s.(config := s.config.(step := f.(bypass := false))))
    else if f.bypass then Step(Continue, s.(config := s.config.(step := f.(bypass := false))))
    else Step(Continue, s)
  }

  /** Some active session belongs to an account whose SID is `sid`. */
  predicate HasActiveSession(sessions: seq<WtsSession>, sid: string, sidOf: string -> Option<string>)
  {
    exists i :: 0 <= i < |sessions| && sessions[i].active && sidOf(sessions[i].user) == Some(sid)
  }

  /** The user logged on recently and still has an active session. */
  predicate Continuous(s: State, os: Os, sid: string)
  {
    && HasLoggedInRecently(s.store, s.config.options.timeoutUnlock, os.now, sid)
    && os.sessions.Some? && HasActiveSession(os.sessions.value, sid, os.sidOf)
  }

  /** The continuity shortcut: a recent logon by an account with an
      active session ends `Connect` with success and stores nothing. */
  function ContinuityStep(s: State, os: Os, sid: string): (r: Step)
    ensures r.flow != Thrown
    ensures r.flow == Done <==> Continuous(s, os, sid)
    ensures r.state == if r.flow == Done then s.(piStatus := PiAuthSuccess) else s
  {
    if Continuous(s, os, sid) then Step(Done, s.(piStatus := PiAuthSuccess)) else Step(Continue, s)
  }

  /** The token-type gates: a user without 2FA is exempt; a locked or
      delayed user is shown as such when that is configured; a push or
      token user on the first step gets the OTP field hidden. */
  function TokenStep(s: State, os: Os, tokenType: int): (r: Step)
    ensures r.flow != Thrown
    ensures r.state.config == s.config.(step := r.state.config.step)
    ensures r.state.config.step.bypass == s.config.step.bypass
    ensures r.state.pushStatic == s.pushStatic && r.state.otpStatic == s.otpStatic
    ensures r.flow == Continue ==>
              r.state == s.(config := s.config.(step := s.config.step.(twoStepHideOtp := r.state.config.step.twoStepHideOtp)))
    ensures r.flow == Continue && !s.config.step.isSecondStep
            && (tokenType == IsPushToken || tokenType == IsWithToken) ==>
              r.state.config.step.twoStepHideOtp
  {
    var c := s.config;
    if c.options.without2fa && tokenType == IsWithout2fa then Exempt(s, os)
    else if (tokenType == IsLocked || tokenType == IsDelayed) && c.options.displayLocked then
      var status := if tokenType == IsLocked then UserLocked else UserDelayed;
      Step(Done, s.(piStatus := status, config := c.(step := c.step.(isSecondStep := true))))
    else if (tokenType == IsPushToken || tokenType == IsWithToken) && !c.step.isSecondStep then
      Step(Continue, s.(config := c.(step := c.step.(twoStepHideOtp := true))))
    else Step(Continue, s)
  }

  // ---------------------------------------------------------------------
  // Connect: validation

  /** The outcome of one `validateCheck`: a success stores the user, a
      failure records the status and the error code whose text is shown. */
  function Checked(s: State, os: Os, result: (Hresult, int)): (r: State)
    ensures r.piStatus == result.0
    ensures r.config == s.config.(failureCode := r.config.failureCode)
    ensures r.pushStatic == s.pushStatic && r.otpStatic == s.otpStatic
    ensures result.0 != PiAuthSuccess ==> r.config.failureCode == result.1 && r.store == s.store
  {
    if result.0 == PiAuthSuccess then StoreLastUser(s.(piStatus := result.0), os)
    else s.(piStatus := result.0, config := s.config.(failureCode := result.1))
  }

  /** What the first step sends: "sms", or the Windows password when only
      `twoStepSendPassword` is set. */
  function FirstStepCode(c: Config): string
  {
    if !c.options.sendEmptyPassword && c.options.sendPassword then c.credential.password else "sms"
  }

  /** The four validation branches at the end of `Connect`: a one-step
      OTP, the first of two steps (the OTP is hidden), the second step, and
      the remaining case of an OTP typed in the second step's field. The
      flags, the options and the statics are left alone. */
  function ValidateStep(s: State, os: Os, be: Backend): (r: State)
    ensures r.config.step == s.config.step && r.config.options == s.config.options
    ensures r.pushStatic == s.pushStatic && r.otpStatic == s.otpStatic
    ensures r.piStatus == PiAuthSuccess ==>
              s.piStatus == PiAuthSuccess
              || be.validate(s.config.credential.otp).0 == PiAuthSuccess
              || be.validate(FirstStepCode(s.config)).0 == PiAuthSuccess
    ensures r.piStatus != s.piStatus ==>
              r.piStatus == be.validate(s.config.credential.otp).0
              || r.piStatus == be.validate(FirstStepCode(s.config)).0
  {
    var c := s.config;
    if c.credential.otp != "" && !c.step.isSecondStep then Checked(s, os, be.validate(c.credential.otp))
    else if c.step.twoStepHideOtp && !c.step.isSecondStep then
      if !c.options.sendEmptyPassword && !c.options.sendPassword then s
      else s.(piStatus := be.validate(FirstStepCode(c)).0)
    else if c.step.twoStepHideOtp && c.step.isSecondStep then
      var s1 := Checked(s, os, be.validate(c.credential.otp));
      if os.offlineUserLen > 1 then
        var cr := s1.config.credential.(username := os.offlineSplit.1, domain := os.offlineSplit.0);
        s1.(config := s1.config.(credential := cr))
      else s1
    else
      var result := be.validate(c.credential.otp);
      if result.0 == PiAuthSuccess && os.offlineUserLen > 1 then
        Checked(s.(config := c.(credential := c.credential.(username := os.offlineUser))), os, result)
      else Checked(s, os, result)
  }

  /** `Connect`: the excluded account, the bypass flag, the continuity
      shortcut, the token type, then validation. It returns `S_OK` unless
      the ".\" rewrite throws. */
  function ConnectSpec(s: State, os: Os, be: Backend): (r: Step)
    ensures r.flow != Continue
    ensures r.state.pushStatic == s.pushStatic && r.state.otpStatic == s.otpStatic
  {
    var a := ExcludedStep(s, os);
    if a.flow != Continue then a
    else
      var b := BypassStep(a.state);
      if b.flow == Done then b
      else
        var c := ContinuityStep(b.state, os, UserSid(b.state.config.usernameField, os));
        if c.flow == Done then c
        else
          var d := TokenStep(c.state, os, be.tokenType);
          if d.flow == Done then d
          else Step(Done, ValidateStep(d.state, os, be))
  }

  /** Past the excluded-account check, `Connect` always leaves the bypass
      flag cleared; a bypass with a successful push returns with
      `_piStatus` unchanged. */
  lemma BypassCleared(s: State, os: Os, be: Backend)
    requires ExcludedStep(s, os).flow == Continue
    ensures !ConnectSpec(s, os, be).state.config.step.bypass
    ensures s.config.step.bypass && s.config.step.pushOk ==>
              ConnectSpec(s, os, be).state.piStatus == s.piStatus
  {
  }

  /** The continuity shortcut: success with the SID history, the last user
      and the timestamp left as they were, whatever the backend. */
  lemma ContinuityShortcut(s: State, os: Os, be: Backend, be2: Backend)
    requires ExcludedStep(s, os).flow == Continue && !(s.config.step.bypass && s.config.step.pushOk)
    requires Continuous(s, os, UserSid(s.config.usernameField, os))
    ensures ConnectSpec(s, os, be).state.piStatus == PiAuthSuccess
    ensures ConnectSpec(s, os, be).state.store == s.store
    ensures ConnectSpec(s, os, be) == ConnectSpec(s, os, be2)
  {
    var b := BypassStep(ExcludedStep(s, os).state);
    assert Continuous(b.state, os, UserSid(s.config.usernameField, os));
  }

  /** Locked and delayed users with `multiOTPDisplayLockedUser` get their
      status and the second step, without any validation: the outcome does
      not depend on what `validateCheck` would say. */
  lemma LockedUserGate(s: State, os: Os, be: Backend, validate2: string -> (Hresult, int))
    requires ExcludedStep(s, os).flow == Continue && !(s.config.step.bypass && s.config.step.pushOk)
    requires !Continuous(s, os, UserSid(s.config.usernameField, os))
    requires be.tokenType == IsLocked || be.tokenType == IsDelayed
    requires s.config.options.displayLocked && !s.config.options.without2fa
    ensures var r := ConnectSpec(s, os, be);
            && r.state.piStatus == (if be.tokenType == IsLocked then UserLocked else UserDelayed)
            && r.state.config.step.isSecondStep
            && r == ConnectSpec(s, os, Backend(be.tokenType, validate2))
  {
    var b := BypassStep(ExcludedStep(s, os).state);
    assert !Continuous(b.state, os, UserSid(s.config.usernameField, os));
  }

  /** `Connect` only reports success for a reason: the excluded account,
      a status that was already a success (a bypass after push leaves it
      untouched), the continuity shortcut, a user without 2FA, or a
      success of `validateCheck`. */
  lemma SuccessJustified(s: State, os: Os, be: Backend)
    requires ConnectSpec(s, os, be).state.piStatus == PiAuthSuccess
    ensures || ExcludedStep(s, os).flow == Done
            || s.piStatus == PiAuthSuccess
            || Continuous(s, os, UserSid(s.config.usernameField, os))
            || (s.config.options.without2fa && be.tokenType == IsWithout2fa)
            || be.validate(s.config.credential.otp).0 == PiAuthSuccess
            || be.validate(FirstStepCode(s.config)).0 == PiAuthSuccess
  {
    var a := ExcludedStep(s, os);
    if a.flow == Continue {
      var b := BypassStep(a.state);
      if b.flow != Done {
        var sid := UserSid(s.config.usernameField, os);
        var c := ContinuityStep(b.state, os, sid);
        if c.flow != Done {
          assert Continuous(b.state, os, sid) == Continuous(s, os, sid);
          var d := TokenStep(c.state, os, be.tokenType);
          if d.flow != Done {
            assert d.state.config.credential == s.config.credential;
            assert FirstStepCode(d.state.config) == FirstStepCode(s.config);
          }
        }
      }
    }
  }

  /** The client this credential is built on answers `userTokenType` with
      a push or an ordinary token and `validateCheck` with success or
      failure only. */
  ghost predicate BackedByMultiOtp(be: Backend, reg: MultiOtp.Registry)
  {
    && be.tokenType == UserTokenType(reg)
    && forall code :: be.validate(code).0 == PiAuthSuccess || be.validate(code).0 == PiAuthFailure
  }

  /** Backed by that client, the without-2FA, locked and delayed gates
      never fire, and outside the second step the OTP field is always
      hidden. */
  lemma MultiOtpGates(s: State, os: Os, be: Backend, reg: MultiOtp.Registry)
    requires BackedByMultiOtp(be, reg)
    ensures TokenStep(s, os, be.tokenType).flow == Continue
    ensures !s.config.step.isSecondStep ==> TokenStep(s, os, be.tokenType).state.config.step.twoStepHideOtp
    ensures s.config.step.isSecondStep ==> TokenStep(s, os, be.tokenType).state == s
  {
  }

  /** With that client `Connect` never leaves `PI_TRIGGERED_CHALLENGE`
      behind, so the challenge branch of the first step is never taken. */
  lemma NoChallengeWithMultiOtp(s: State, os: Os, be: Backend, reg: MultiOtp.Registry)
    requires BackedByMultiOtp(be, reg)
    requires s.piStatus != PiTriggeredChallenge
    ensures ValidateStep(s, os, be).piStatus != PiTriggeredChallenge
  {
    assert be.validate(s.config.credential.otp).0 != PiTriggeredChallenge;
    assert be.validate(FirstStepCode(s.config)).0 != PiTriggeredChallenge;
  }

  // ---------------------------------------------------------------------
  // GetSerialization

  /** `CREDENTIAL_PROVIDER_GET_SERIALIZATION_RESPONSE`. */
  datatype Response =
    | ReturnNoCredentialFinished | NoCredentialNotFinished | NoCredentialFinished | ReturnCredentialFinished

  /** The button the user presses in the method-choice dialog. */
  datatype Choice = ChosePush | ChoseOtp | Cancelled

  /** What the dialogs do: the choice; the status the push callback stores
      in `s_piStatus`, if it runs; the code the OTP dialog returns; the
      status the OTP callback last stored in `s_otpStatus`, if it ran. */
  datatype Dialog = Dialog(choice: Choice, pushCheck: Option<Hresult>, otpCode: string, otpCheck: Option<Hresult>)

  /** What the packers answer: the response `KerberosChangePassword`
      sets, and the response `KerberosLogon` or `CredPackAuthentication`
      sets with whether it succeeded. */
  datatype Packer = Packer(changeResponse: Response, logonResponse: Response, logonOk: bool)

  /** The outcome of `GetSerialization`: the response, whether it returned
      `S_OK`, whether logon credentials were packed, and the new state. */
  datatype Serialized = Serialized(response: Response, ok: bool, logon: bool, state: State)

  /** The method-choice dialog as written: the function-local statics keep
      whatever an earlier dialog stored, and `_piStatus` takes them over
      whatever button was pressed. */
  function ChoiceDialog(s: State, d: Dialog): (r: (State, Response))
    ensures r.0.config == s.config.(step := r.0.config.step)
    ensures r.0.config.step.pushOk ==> s.config.step.pushOk || r.0.piStatus == PiAuthSuccess
    ensures r.0.piStatus == PiAuthSuccess && d.choice == ChosePush ==>
              d.pushCheck == Some(PiAuthSuccess) || (d.pushCheck.None? && s.pushStatic == PiAuthSuccess)
    ensures r.0.piStatus == PiAuthSuccess && d.choice == ChoseOtp ==>
              d.otpCheck == Some(PiAuthSuccess) || (d.otpCheck.None? && s.otpStatic == PiAuthSuccess)
    ensures d.choice == Cancelled ==> r.0.piStatus == s.piStatus
  {
    var f := s.config.step.(isSecondStep := true, clearFields := false);
    var s1 := s.(config := s.config.(step := f));
    var retry := s1.(config := s1.config.(step := f.(isSecondStep := false)));
    match d.choice
    case ChosePush =>
      var status := d.pushCheck.GetOr(s.pushStatic);
      if status == PiAuthSuccess then
        (s1.(pushStatic := status, piStatus := status, config := s1.config.(step := f.(pushOk := true))),
         ReturnNoCredentialFinished)
      else (retry.(pushStatic := status, piStatus := status), NoCredentialNotFinished)
    case ChoseOtp =>
      var status := d.otpCheck.GetOr(s.otpStatic);
      if d.otpCode != "" && status == PiAuthSuccess then
        (s1.(otpStatic := status, piStatus := status), ReturnNoCredentialFinished)
      else (retry.(otpStatic := status, piStatus := status), NoCredentialNotFinished)
    case Cancelled => (retry, NoCredentialNotFinished)
  }

  /** The dialog with the statics reset to `E_FAIL` before it is shown:
      `_piStatus` becomes a success only when this dialog's callback
      reported one. */
  function FreshChoiceDialog(s: State, d: Dialog): (r: (State, Response))
    ensures r.0.piStatus == PiAuthSuccess ==>
              || (s.piStatus == PiAuthSuccess && d.choice == Cancelled)
              || (d.choice == ChosePush && d.pushCheck == Some(PiAuthSuccess))
              || (d.choice == ChoseOtp && d.otpCheck == Some(PiAuthSuccess))
  {
    ChoiceDialog(s.(pushStatic := EFail, otpStatic := EFail), d)
  }

  /** The clean-up every path but the cancelled one ends with: the
      one-time `clearFields = false` is turned back on. */
  function Tail(r: Serialized): (t: Serialized)
    ensures t.state.config.step.clearFields
    ensures t == r.(state := t.state)
    ensures t.state == r.state.(config := t.state.config)
    ensures t.state.config == r.state.config.(step := r.state.config.step.(clearFields := true))
  {
    if r.state.config.step.clearFields then r
    else
      var c := r.state.config;
      r.(state := r.state.(config := c.(step := c.step.(clearFields := true))))
  }

  /** The second-factor part of `GetSerialization`: without a success yet,
      the method-choice dialog on the first step with the OTP field hidden,
      otherwise the error path; `reset` clears the statics first. */
  function SecondFactor(s: State, d: Dialog, reset: bool): (r: (State, Response))
    ensures s.piStatus == PiAuthSuccess || s.config.step.pushOk ==> r == (s, ReturnNoCredentialFinished)
    ensures r.0.config.credential == s.config.credential
    ensures r.0.config.step.userCanceled == s.config.step.userCanceled
    ensures r.0.config.options == s.config.options
    ensures r.0.piStatus != PiAuthSuccess && !r.0.config.step.pushOk ==> r.1 == NoCredentialNotFinished
  {
    if s.piStatus != PiAuthSuccess && !s.config.step.pushOk then
      if !s.config.step.isSecondStep && s.config.step.twoStepHideOtp then
        if reset then FreshChoiceDialog(s, d) else ChoiceDialog(s, d)
      else (s, NoCredentialNotFinished)
    else (s, ReturnNoCredentialFinished)
  }

  /** Pack the credentials for logon after a second factor: the status
      and the push flag are reset for the next logon. */
  function Pack(s: State, pk: Packer): (r: Serialized)
    ensures r.logon && r.state.piStatus == PiStatusNotSet && !r.state.config.step.pushOk
  {
    Tail(Serialized(pk.logonResponse, pk.logonOk, true,
                    s.(piStatus := PiStatusNotSet, config := s.config.(step := s.config.step.(pushOk := false)))))
  }

  /** `GetSerialization`, with the dialog's statics reset (`reset`) or
      kept as written: a password change, the logon after one, a cancelled
      logon, or the second factor followed by packing. */
  function SerializeWith(s: State, d: Dialog, pk: Packer, reset: bool): (r: Serialized)
  {
    var c := s.config;
    if c.credential.mustChange then
      if c.credential.newPassword1 == c.credential.newPassword2 then
        Tail(Serialized(pk.changeResponse, true, false, s))
      else
        Tail(Serialized(NoCredentialNotFinished, true, false,
                        s.(config := c.(step := c.step.(clearFields := false)))))
    else if c.credential.changed then
      Tail(Serialized(pk.logonResponse, true, true,
                      s.(config := c.(credential := c.credential.(changed := false)))))
    else if c.step.userCanceled then
      Serialized(NoCredentialFinished, false, false, s)
    else
      var (s1, response) := SecondFactor(s, d, reset);
      if s1.piStatus == PiAuthSuccess || s1.config.step.pushOk then Pack(s1, pk)
      else if response != NoCredentialNotFinished then Tail(Serialized(response, false, false, s1))
      else Tail(Serialized(response, true, false, s1))
  }

  /** `GetSerialization` as the model uses it: the statics reset before
      each dialog. */
  function Serialize(s: State, d: Dialog, pk: Packer): (r: Serialized)
    ensures r.logon ==> (r.state.piStatus == PiStatusNotSet && !r.state.config.step.pushOk)
                        || s.config.credential.changed
  {
    SerializeWith(s, d, pk, true)
  }

  /** Logon credentials are packed only with a success in hand: a password
      just changed, a status or push flag already a success, or a
      callback of this very dialog that reported one. */
  lemma LogonNeedsSecondFactor(s: State, d: Dialog, pk: Packer)
    requires Serialize(s, d, pk).logon
    ensures || (s.config.credential.changed && !s.config.credential.mustChange)
            || s.piStatus == PiAuthSuccess || s.config.step.pushOk
            || (d.choice == ChosePush && d.pushCheck == Some(PiAuthSuccess))
            || (d.choice == ChoseOtp && d.otpCheck == Some(PiAuthSuccess))
  {
    var c := s.config;
    if !c.credential.mustChange && !c.credential.changed && !c.step.userCanceled
       && s.piStatus != PiAuthSuccess && !c.step.pushOk && !c.step.isSecondStep && c.step.twoStepHideOtp {
      var r := FreshChoiceDialog(s, d);
      assert r.0.config.step.pushOk ==> r.0.piStatus == PiAuthSuccess;
    }
  }

  /** The "Unexpected error" branch cannot be reached: whenever no
      credential is packed on the logon path, the response is
      `CPGSR_NO_CREDENTIAL_NOT_FINISHED` and the call returns `S_OK`. */
  lemma NoUnexpectedError(s: State, d: Dialog, pk: Packer, reset: bool)
    requires !s.config.credential.mustChange && !s.config.credential.changed
    requires !s.config.step.userCanceled
    ensures var r := SerializeWith(s, d, pk, reset);
            !r.logon ==> r.response == NoCredentialNotFinished && r.ok
  {
  }

  /** A cancelled logon packs nothing, leaves the state as it was and
      finishes without a credential. */
  lemma CancelledLogon(s: State, d: Dialog, pk: Packer)
    requires !s.config.credential.mustChange && !s.config.credential.changed
    requires s.config.step.userCanceled
    ensures Serialize(s, d, pk) == Serialized(NoCredentialFinished, false, false, s)
  {
  }

  /** Mismatched new passwords ask again; matching ones hand over to the
      password-change packer and never log on. */
  lemma PasswordChangePath(s: State, d: Dialog, pk: Packer)
    requires s.config.credential.mustChange
    ensures var r := Serialize(s, d, pk);
            && !r.logon && r.ok && r.state.piStatus == s.piStatus
            && r.response == (if s.config.credential.newPassword1 == s.config.credential.newPassword2
                              then pk.changeResponse else NoCredentialNotFinished)
  {
  }

  /** The push and OTP flows of the dialog: a push approved by the
      callback, or an OTP the callback accepted, logs on (even when the
      dialog then hands back no code, since `_piStatus` takes the callback's
      status either way); anything else asks again on the first step. */
  lemma DialogOutcomes(s: State, d: Dialog, pk: Packer)
    requires !s.config.credential.mustChange && !s.config.credential.changed
    requires !s.config.step.userCanceled && s.piStatus != PiAuthSuccess && !s.config.step.pushOk
    requires !s.config.step.isSecondStep && s.config.step.twoStepHideOtp
    ensures var r := Serialize(s, d, pk);
            && (r.logon <==>
                  || (d.choice == ChosePush && d.pushCheck == Some(PiAuthSuccess))
                  || (d.choice == ChoseOtp && d.otpCheck == Some(PiAuthSuccess)))
            && (!r.logon ==> !r.state.config.step.isSecondStep && r.response == NoCredentialNotFinished)
  {
  }

  /** The stale-status bug as written: an OTP dialog that is cancelled
      (no code, the callback never runs) after an earlier successful OTP in
      the same process still packs the credentials for logon. */
  lemma StaleOtpStatusLogsOn(s: State, pk: Packer)
    requires !s.config.credential.mustChange && !s.config.credential.changed
    requires !s.config.step.userCanceled && s.piStatus != PiAuthSuccess && !s.config.step.pushOk
    requires !s.config.step.isSecondStep && s.config.step.twoStepHideOtp
    requires s.otpStatic == PiAuthSuccess
    ensures SerializeWith(s, Dialog(ChoseOtp, None, "", None), pk, false).logon
    ensures !Serialize(s, Dialog(ChoseOtp, None, "", None), pk).logon
  {
  }

  /** After a successful OTP dialog the static holds a success, so the
      next cancelled OTP dialog of the same process logs on too. */
  lemma StaleStatusSurvives(s: State, code: string, pk: Packer)
    requires !s.config.credential.mustChange && !s.config.credential.changed
    requires !s.config.step.userCanceled && s.piStatus != PiAuthSuccess && !s.config.step.pushOk
    requires !s.config.step.isSecondStep && s.config.step.twoStepHideOtp
    requires code != ""
    ensures SerializeWith(s, Dialog(ChoseOtp, None, code, Some(PiAuthSuccess)), pk, false).state.otpStatic
            == PiAuthSuccess
  {
  }

  // ---------------------------------------------------------------------
  // ReportResult, SetDeselected and the push callback

  const StatusPasswordMustChange: int := 0xC000_0224
  const StatusPasswordExpired: int := 0xC000_0071
  const StatusPasswordRestriction: int := 0xC000_006C
  const StatusIllFormedPassword: int := 0xC000_006B
  const StatusLogonFailure: int := 0xC000_006D
  const StatusInternalError: int := 0xC000_00E5

  /** `ReportResult`: a successful change turns into a logon with the new
      password; a must-change or expired status asks for a change; a new
      password refused by policy, or a wrong old one, starts the change
      over. */
  function ReportResultSpec(c: Credentials, status: int, substatus: int): (r: Credentials)
    ensures r == c.(mustChange := r.mustChange, changed := r.changed)
  {
    if c.mustChange && status == 0 && substatus == 0 then c.(mustChange := false, changed := true)
    else if status == StatusPasswordMustChange || substatus == StatusPasswordExpired then c.(mustChange := true)
    else if status == StatusPasswordRestriction || substatus == StatusIllFormedPassword
            || (status == StatusLogonFailure && substatus == StatusInternalError)
    then c.(mustChange := true, changed := false)
    else c
  }

  /** The password-change cycle: a must-change status asks for the new
      password, and the success report after the change lets the next
      `GetSerialization` log on with it. */
  lemma PasswordChangeCycle(s: State, d: Dialog, pk: Packer)
    requires !s.config.credential.mustChange
    ensures var c1 := ReportResultSpec(s.config.credential, StatusPasswordMustChange, 0);
            var c2 := ReportResultSpec(c1, 0, 0);
            var s2 := s.(config := s.config.(credential := c2));
            && c1.mustChange && !c2.mustChange && c2.changed
            && Serialize(s2, d, pk).logon
            && !Serialize(s2, d, pk).state.config.credential.changed
  {
  }

  /** Any other result leaves the change state as it was, and a logon
      that was not changing a password is never put into one by a plain
      success. */
  lemma ReportOther(c: Credentials, status: int, substatus: int)
    requires status != StatusPasswordMustChange && substatus != StatusPasswordExpired
    requires status != StatusPasswordRestriction && substatus != StatusIllFormedPassword
    requires !(status == StatusLogonFailure && substatus == StatusInternalError)
    requires !(c.mustChange && status == 0 && substatus == 0)
    ensures ReportResultSpec(c, status, substatus) == c
  {
  }

  /** `PushAuthenticationCallback`: an approved push marks the push as
      successful and asks for an automatic logon that bypasses the
      server. */
  function PushCallbackSpec(f: Flags, success: bool): (r: Flags)
    ensures success ==> r.pushOk && r.doAutoLogon && r.bypass
    ensures !success ==> r == f
    ensures r == f.(pushOk := r.pushOk, doAutoLogon := r.doAutoLogon, bypass := r.bypass)
  {
    if success then f.(pushOk := true, doAutoLogon := true, bypass := true) else f
  }

  /** An approved push, the automatic `Connect` it triggers and the
      following `GetSerialization` log on without asking the server: the
      bypass is consumed and the push flag reset. */
  lemma PushThenLogon(s: State, os: Os, be: Backend, d: Dialog, pk: Packer)
    requires s.config.excludedAccount == ""
    requires !s.config.credential.mustChange && !s.config.credential.changed && !s.config.step.userCanceled
    ensures var s1 := s.(config := s.config.(step := PushCallbackSpec(s.config.step, true)));
            var r := ConnectSpec(s1, os, be);
            && r.flow == Done && r.state.piStatus == s.piStatus && !r.state.config.step.bypass
            && Serialize(r.state, d, pk).logon
            && !Serialize(r.state, d, pk).state.config.step.pushOk
  {
    var s1 := s.(config := s.config.(step := PushCallbackSpec(s.config.step, true)));
    var r := ConnectSpec(s1, os, be);
    assert r.state.config.step.pushOk;
    assert r.state.config.credential == s.config.credential;
  }

  /** Leaving the tile forgets any password change in progress, so the
      next `GetSerialization` packs a logon only after a second factor. */
  lemma DeselectedNeedsSecondFactor(s: State, d: Dialog, pk: Packer)
    ensures var c := s.config.(credential := s.config.credential.(mustChange := false, changed := false));
            var r := Serialize(s.(config := c), d, pk);
            r.logon ==>
              || s.piStatus == PiAuthSuccess || s.config.step.pushOk
              || (d.choice == ChosePush && d.pushCheck == Some(PiAuthSuccess))
              || (d.choice == ChoseOtp && d.otpCheck == Some(PiAuthSuccess))
  {
    var c := s.config.(credential := s.config.credential.(mustChange := false, changed := false));
    if Serialize(s.(config := c), d, pk).logon {
      LogonNeedsSecondFactor(s.(config := c), d, pk);
    }
  }

  // ---------------------------------------------------------------------
  // The credential object

  /** `WTSEnumerateSessions` walked session by session: is one of them an
      active session of the account with SID `sid`? */
  method FindActiveSession(sessions: seq<WtsSession>, sid: string, sidOf: string -> Option<string>)
    returns (found: bool)
    ensures found == HasActiveSession(sessions, sid, sidOf)
  {
    var index := 0;
    while index < |sessions|
      invariant 0 <= index <= |sessions|
      invariant forall i :: 0 <= i < index ==> !(sessions[i].active && sidOf(sessions[i].user) == Some(sid))
    {
      if sessions[index].active && sidOf(sessions[index].user) == Some(sid) {
        return true;
      }
      index := index + 1;
    }
    return false;
  }

  /** One `CCredential`: its configuration, `_piStatus`, the registry
      values it writes, and the statics of the method-choice dialog (one
      credential per LogonUI process). */
  class Credential {
    var config: Config
    var piStatus: Hresult
    var store: Store
    var pushStatic: Hresult
    var otpStatic: Hresult

    function Snapshot(): State
      reads this
    {
      State(config, piStatus, store, pushStatic, otpStatic)
    }

    /** A new credential has no status yet; the dialog statics start as
        `E_FAIL`. */
    constructor (config: Config, store: Store)
      ensures Snapshot() == State(config, PiStatusNotSet, store, EFail, EFail)
    {
      this.config := config;
      this.piStatus := PiStatusNotSet;
      this.store := store;
      this.pushStatic := EFail;
      this.otpStatic := EFail;
    }

    method StoreLastConnectedUserIfNeeded(os: Os)
      modifies this
      ensures Snapshot() == StoreLastUser(old(Snapshot()), os)
    {
      if config.options.displayLastUser || config.options.timeoutUnlock > 0 {
        var sid := UserSid(config.usernameField, os);
        var timestamp := store.lastUserTimestamp;
        if config.options.timeoutUnlock > 0 {
          timestamp := os.now;
        }
        store := Store(store.history[sid := os.now], config.usernameField, timestamp);
      } else {
        store := store.(lastUser := "");
      }
    }

    /** The excluded-account check, with the "." rewrites. */
    method CheckExcludedAccount(os: Os) returns (flow: Flow)
      modifies this
      ensures Step(flow, Snapshot()) == ExcludedStep(old(Snapshot()), os)
    {
      if config.excludedAccount == "" {
        return Continue;
      }
      var excluded := config.excludedAccount;
      if StartsWithDotOrSlash(excluded) && os.computerNameOk {
        if |excluded| < 2 {
          return Thrown;
        }
        config := config.(excludedAccount := os.computerName + "\\" + excluded[2..]);
      }
      var toCompare := Qualified(config.credential);
      if StartsWithDotOrSlash(toCompare) && os.computerNameOk {
        if |toCompare| < 2 {
          return Thrown;
        }
        toCompare := os.computerName + "\\" + toCompare[2..];
      }
      if IsExcluded(config, toCompare, os) {
        piStatus := PiAuthSuccess;
        StoreLastConnectedUserIfNeeded(os);
        return Done;
      }
      return Continue;
    }

    /** The bypass flag is honoured only with a successful push. */
    method CheckBypass() returns (flow: Flow)
      modifies this
      ensures Step(flow, Snapshot()) == BypassStep(old(Snapshot()))
    {
      flow := Continue;
      if config.step.bypass && config.step.pushOk {
        flow := Done;
      }
      if config.step.bypass {
        config := config.(step := config.step.(bypass := false));
      }
    }

    /** The continuity shortcut of the unlock timeout. */
    method CheckContinuity(os: Os) returns (flow: Flow)
      modifies this
      ensures Step(flow, Snapshot()) == ContinuityStep(old(Snapshot()), os, UserSid(old(config).usernameField, os))
    {
      var sid := UserSid(config.usernameField, os);
      if config.options.timeoutUnlock > 0 && HasLoggedInRecently(store, config.options.timeoutUnlock, os.now, sid)
         && os.sessions.Some? {
        var found := FindActiveSession(os.sessions.value, sid, os.sidOf);
        if found {
          piStatus := PiAuthSuccess;
          return Done;
        }
      }
      return Continue;
    }

    /** The token-type gates. */
    method CheckTokenType(os: Os, tokenType: int) returns (flow: Flow)
      modifies this
      ensures Step(flow, Snapshot()) == TokenStep(old(Snapshot()), os, tokenType)
    {
      if config.options.without2fa && tokenType == IsWithout2fa {
        piStatus := PiAuthSuccess;
        StoreLastConnectedUserIfNeeded(os);
        return Done;
      }
      if (tokenType == IsLocked || tokenType == IsDelayed) && config.options.displayLocked {
        piStatus := if tokenType == IsLocked then UserLocked else UserDelayed;
        config := config.(step := config.step.(isSecondStep := true));
        return Done;
      }
      if (tokenType == IsPushToken || tokenType == IsWithToken) && !config.step.isSecondStep {
        config := config.(step := config.step.(twoStepHideOtp := true));
      }
      return Continue;
    }

    /** One `validateCheck` and what follows from its answer. */
    method Check(os: Os, result: (Hresult, int))
      modifies this
      ensures Snapshot() == Checked(old(Snapshot()), os, result)
    {
      piStatus := result.0;
      if result.0 == PiAuthSuccess {
        StoreLastConnectedUserIfNeeded(os);
      } else {
        config := config.(failureCode := result.1);
      }
    }

    /** The validation branches at the end of `Connect`. */
    method Validate(os: Os, be: Backend)
      modifies this
      ensures Snapshot() == ValidateStep(old(Snapshot()), os, be)
    {
      if config.credential.otp != "" && !config.step.isSecondStep {
        Check(os, be.validate(config.credential.otp));
      } else if config.step.twoStepHideOtp && !config.step.isSecondStep {
        if config.options.sendEmptyPassword || config.options.sendPassword {
          piStatus := be.validate(FirstStepCode(config)).0;
        }
      } else if config.step.twoStepHideOtp && config.step.isSecondStep {
        Check(os, be.validate(config.credential.otp));
        if os.offlineUserLen > 1 {
          config := config.(credential := config.credential.(username := os.offlineSplit.1,
                                                             domain := os.offlineSplit.0));
        }
      } else {
        var result := be.validate(config.credential.otp);
        if result.0 == PiAuthSuccess && os.offlineUserLen > 1 {
          config := config.(credential := config.credential.(username := os.offlineUser));
        }
        Check(os, result);
      }
    }

    /** `Connect`: the checks in order, stopping at the first that ends
        the call. */
    method Connect(os: Os, be: Backend) returns (flow: Flow)
      modifies this
      ensures Step(flow, Snapshot()) == ConnectSpec(old(Snapshot()), os, be)
    {
      flow := CheckExcludedAccount(os);
      if flow != Continue {
        return;
      }
      flow := CheckBypass();
      if flow == Done {
        return;
      }
      flow := CheckContinuity(os);
      if flow == Done {
        return;
      }
      flow := CheckTokenType(os, be.tokenType);
      if flow == Done {
        return;
      }
      Validate(os, be);
      flow := Done;
    }

    /** The method-choice dialog, with the statics reset before it is
        shown. */
    method ShowChoiceDialog(d: Dialog) returns (response: Response)
      modifies this
      ensures (Snapshot(), response) == FreshChoiceDialog(old(Snapshot()), d)
    {
      pushStatic := EFail;
      otpStatic := EFail;
      config := config.(step := config.step.(isSecondStep := true, clearFields := false));
      response := ReturnNoCredentialFinished;
      match d.choice {
        case ChosePush =>
          pushStatic := d.pushCheck.GetOr(pushStatic);
          piStatus := pushStatic;
          if piStatus == PiAuthSuccess {
            config := config.(step := config.step.(pushOk := true));
          } else {
            response := NoCredentialNotFinished;
            config := config.(step := config.step.(isSecondStep := false));
          }
        case ChoseOtp =>
          otpStatic := d.otpCheck.GetOr(otpStatic);
          piStatus := otpStatic;
          if !(d.otpCode != "" && piStatus == PiAuthSuccess) {
            response := NoCredentialNotFinished;
            config := config.(step := config.step.(isSecondStep := false));
          }
        case Cancelled =>
          response := NoCredentialNotFinished;
          config := config.(step := config.step.(isSecondStep := false));
      }
    }

    /** Turn the one-time `clearFields = false` back on. */
    method ClearFieldsOnce()
      modifies this
      ensures Snapshot() == old(Snapshot()).(config := old(config).(step := old(config).step.(clearFields := true)))
    {
      if !config.step.clearFields {
        config := config.(step := config.step.(clearFields := true));
      }
    }

    /** `GetSerialization`. */
    method GetSerialization(d: Dialog, pk: Packer) returns (response: Response, ok: bool, logon: bool)
      modifies this
      ensures Serialized(response, ok, logon, Snapshot()) == Serialize(old(Snapshot()), d, pk)
    {
      response, ok, logon := ReturnNoCredentialFinished, true, false;
      if config.credential.mustChange {
        if config.credential.newPassword1 == config.credential.newPassword2 {
          response := pk.changeResponse;
        } else {
          response := NoCredentialNotFinished;
          config := config.(step := config.step.(clearFields := false));
        }
      } else if config.credential.changed {
        response := pk.logonResponse;
        logon := true;
        config := config.(credential := config.credential.(changed := false));
      } else {
        if config.step.userCanceled {
          return NoCredentialFinished, false, false;
        }
        if piStatus != PiAuthSuccess && !config.step.pushOk {
          if !config.step.isSecondStep && config.step.twoStepHideOtp {
            response := ShowChoiceDialog(d);
          } else {
            response := NoCredentialNotFinished;
          }
        }
        if piStatus == PiAuthSuccess || config.step.pushOk {
          piStatus := PiStatusNotSet;
          config := config.(step := config.step.(pushOk := false));
          response, ok, logon := pk.logonResponse, pk.logonOk, true;
        } else if response != NoCredentialNotFinished {
          ok := false;
        }
      }
      ClearFieldsOnce();
    }

    /** `ReportResult`. */
    method ReportResult(status: int, substatus: int)
      modifies this
      ensures Snapshot() == old(Snapshot()).(config := old(config).(credential :=
                              ReportResultSpec(old(config).credential, status, substatus)))
    {
      var c := config.credential;
      if c.mustChange && status == 0 && substatus == 0 {
        config := config.(credential := c.(mustChange := false, changed := true));
        return;
      }
      if status == StatusPasswordMustChange || substatus == StatusPasswordExpired {
        config := config.(credential := c.(mustChange := true));
        return;
      }
      var notUpdated := status == StatusPasswordRestriction || substatus == StatusIllFormedPassword;
      notUpdated := notUpdated || (status == StatusLogonFailure && substatus == StatusInternalError);
      if notUpdated {
        config := config.(credential := c.(mustChange := true, changed := false));
      }
    }

    /** `SetDeselected`: the password change in progress is forgotten. */
    method SetDeselected()
      modifies this
      ensures Snapshot() == old(Snapshot()).(config := old(config).(credential :=
                              old(config).credential.(mustChange := false, changed := false)))
    {
      config := config.(credential := config.credential.(changed := false, mustChange := false));
    }

    /** `PushAuthenticationCallback`. */
    method PushAuthenticationCallback(success: bool)
      modifies this
      ensures Snapshot() == old(Snapshot()).(config := old(config).(step := PushCallbackSpec(old(config).step, success)))
    {
      if success {
        config := config.(step := config.step.(pushOk := true, doAutoLogon := true, bypass := true));
      }
    }
  }
}
