/** The proxy's authentication engine: primary authentication (Active
    Directory, or none), then a second factor chosen from a factor
    appended to the password or from the configured mode.

    The directory check and the API exchanges are parameters: `Backends`
    holds, as functions of what is sent to them, what the directory
    answers and the HTTP outcomes the client sees. */
module ProxyEngine {
  import Text
  import ProxyClient
  import opened Wrappers

  datatype AuthResult = Success | PrimaryFailed | PushFailed | PushDenied | PushTimeout
                      | OtpInvalid | UserNotFound | Error
  {
    /** The enum's string value. */
    function Value(): string
    {
      match this
      case Success => "success"
      case PrimaryFailed => "primary_failed"
      case PushFailed => "push_failed"
      case PushDenied => "push_denied"
      case PushTimeout => "push_timeout"
      case OtpInvalid => "otp_invalid"
      case UserNotFound => "user_not_found"
      case Error => "error"
    }
  }

  /** The characters Python's `str.isdigit()` accepts: those whose Unicode
      numeric type is Decimal or Digit. Besides '0'..'9' these include
      the other scripts' decimal digits, superscripts, and circled and
      fullwidth digits; the table is a parameter holding at least the
      ASCII digits. */
  type DigitClass = isDigit: char -> bool | forall c :: '0' <= c <= '9' ==> isDigit(c)
    witness (c: char) => '0' <= c <= '9'

  /** `AuthEngine`: whether a directory is configured, the API client,
      and the interpreter's digit class. */
  datatype Engine = Engine(hasDirectory: bool, client: ProxyClient.Client, serviceName: string,
                           isDigit: DigitClass)

  /** Who a push is for: the user, the device text and the client IP
      that `authenticate_push` passes to the API client. */
  datatype PushTarget = PushTarget(username: string, deviceInfo: string, ipAddress: string)

  /** The outside world of one authentication: the directory's
      `(success, message)` for a user name and password, the outcome of
      the push send and the polls that follow for a push target, and the
      outcome of the OTP verification for a user name and code. */
  datatype Backends = Backends(directory: (string, string) -> (bool, string),
                               pushSend: PushTarget -> ProxyClient.HttpOutcome,
                               pushPolls: PushTarget -> seq<ProxyClient.Poll>,
                               otpCheck: (string, string) -> ProxyClient.HttpOutcome)

  /** Index of the last ',' in `s`, or `None`. */
  function LastComma(s: string): (r: Option<nat>)
    ensures r.None? <==> ',' !in s
    ensures r.Some? ==> r.value < |s| && s[r.value] == ','
    ensures r.Some? ==> ',' !in s[r.value + 1..]
  {
    if s == [] then None
    else if s[|s| - 1] == ',' then Some(|s| - 1)
    else
      var r := LastComma(s[..|s| - 1]);
      assert r.Some? ==> s[r.value + 1..] == s[..|s| - 1][r.value + 1..] + [s[|s| - 1]];
      r
  }

  /** `_parse_password`: `password.rsplit(",", 1)` when it holds a comma. */
  function ParsePassword(password: string): (r: (string, Option<string>))
    ensures r.1.None? <==> ',' !in password
    ensures r.1.None? ==> r.0 == password
    ensures r.1.Some? ==> password == r.0 + "," + r.1.value && ',' !in r.1.value
  {
    match LastComma(password)
    case None => (password, None)
    case Some(k) =>
      assert password == password[..k] + "," + password[k + 1..];
      (password[..k], Some(password[k + 1..]))
  }

  /** Splitting at the last comma is the only split with a comma-free
      factor: joining the parts back gives the password, and no other
      split does so. */
  lemma ParsePasswordUnique(password: string, realPassword: string, factor: string)
    requires password == realPassword + "," + factor && ',' !in factor
    ensures ParsePassword(password) == (realPassword, Some(factor))
  {
    var k := LastComma(password).value;
    var j := |realPassword|;
    assert password[j] == ',';
    assert forall i :: k < i < |password| ==> password[i] == password[k + 1..][i - (k + 1)];
    assert forall i :: j < i < |password| ==> password[i] == factor[i - (j + 1)];
    assert k == j;
    assert password[..j] == realPassword;
    assert password[j + 1..] == factor;
  }

  /** `authenticate_primary`: the directory's answer, or a pass-through
      when none is configured. */
  function AuthenticatePrimary(e: Engine, b: Backends, username: string, password: string)
    : (r: (bool, string))
    ensures !e.hasDirectory ==> r == (true, "Pass-through")
    ensures e.hasDirectory ==> r == b.directory(username, password)
  {
    if e.hasDirectory then b.directory(username, password) else (true, "Pass-through")
  }

  /** `authenticate_push`: success exactly when the API client's push for
      this user, device and IP is approved; anything else is a timeout. */
  function AuthenticatePushResult(e: Engine, b: Backends, target: PushTarget): (r: AuthResult)
    ensures r == Success || r == PushTimeout
    ensures r == Success <==>
              ProxyClient.AuthenticatePush(e.client, b.pushSend(target), b.pushPolls(target))
  {
    if ProxyClient.AuthenticatePush(e.client, b.pushSend(target), b.pushPolls(target)) then Success
    else PushTimeout
  }

  /** `authenticate_otp`: success exactly when the API accepts this code
      for this user. */
  function AuthenticateOtpResult(b: Backends, username: string, code: string): (r: AuthResult)
    ensures r == Success || r == OtpInvalid
    ensures r == Success <==> ProxyClient.VerifyOtp(b.otpCheck(username, code))
  {
    if ProxyClient.VerifyOtp(b.otpCheck(username, code)) then Success else OtpInvalid
  }

  /** `str.isdigit()`: every character is a digit; false on "". */
  predicate IsDigits(isDigit: DigitClass, s: string)
  {
    s != [] && forall i :: 0 <= i < |s| ==> isDigit(s[i])
  }

  /** The second-factor step, before its result is turned into a message:
      `Some` result, or `None` with the error message when no factor can
      be used. */
  function SecondFactor(e: Engine, b: Backends, target: PushTarget, factor: Option<string>,
                        mode: string): (r: Result2FA)
  {
    if factor.Some? && factor.value != "" then
      var f := factor.value;
      if Text.Lower(f) == "push" then Ran(AuthenticatePushResult(e, b, target))
      else if IsDigits(e.isDigit, f) && |f| >= 6 then Ran(AuthenticateOtpResult(b, target.username, f))
      else Refused("Unknown factor: " + f)
    else if mode == "push" then Ran(AuthenticatePushResult(e, b, target))
    else if mode == "otp" then Refused("OTP code required")
    else Ran(AuthenticatePushResult(e, b, target))
  }

  datatype Result2FA = Ran(result: AuthResult) | Refused(message: string)

  /** `authenticate(username, password, device_info, ip_address, mode)`. */
  function Authenticate(e: Engine, b: Backends, username: string, password: string,
                        deviceInfo: string, ipAddress: string, mode: string)
    : (r: (AuthResult, string))
    ensures r.0 in {Success, PrimaryFailed, PushTimeout, OtpInvalid, Error}
  {
    var (realPassword, factor) := ParsePassword(password);
    var (primaryOk, primaryMsg) := AuthenticatePrimary(e, b, username, realPassword);
    if !primaryOk then (PrimaryFailed, primaryMsg)
    else match SecondFactor(e, b, PushTarget(username, deviceInfo, ipAddress), factor, mode)
      case Refused(msg) => (Error, msg)
      case Ran(result) =>
        if result == Success then (Success, "Authentication successful")
        else (result, "2FA failed: " + result.Value())
  }

  /** Which second factor a password and mode ask for: push, OTP, or
      none that can be used. */
  datatype Choice = UsePush | UseOtp(code: string) | NoFactor

  /** The choice, stated on the password and mode alone: a non-empty text
      after the last comma is the factor ("push" in any case, or at least
      six characters of `isDigit`); without one, mode "otp" has no code
      and every other mode pushes. */
  function ChoiceOf(isDigit: DigitClass, password: string, mode: string): Choice
  {
    var k := LastComma(password);
    var f := if k.Some? then password[k.value + 1..] else "";
    if f != "" then
      if Text.Lower(f) == "push" then UsePush
      else if IsDigits(isDigit, f) && |f| >= 6 then UseOtp(f)
      else NoFactor
    else if mode == "otp" then NoFactor
    else UsePush
  }

  /** The factor `_parse_password` returns is the one `ChoiceOf` reads. */
  lemma SecondFactorChoice(e: Engine, b: Backends, target: PushTarget, password: string,
                            mode: string)
    ensures var f := SecondFactor(e, b, target, ParsePassword(password).1, mode);
      match ChoiceOf(e.isDigit, password, mode)
      case UsePush => f == Ran(AuthenticatePushResult(e, b, target))
      case UseOtp(code) => f == Ran(AuthenticateOtpResult(b, target.username, code))
      case NoFactor => f.Refused?
  {
    var factor := ParsePassword(password).1;
    var k := LastComma(password);
    assert factor.Some? ==> factor.value == password[k.value + 1..];
  }

  /** Success means the directory accepted this user's password, with any
      appended factor cut off, and the chosen factor was confirmed for
      this user: an approved push to this user, device and IP, or an OTP
      the API found valid for this user. A primary failure carries the
      directory's message, whatever the factor. */
  lemma AuthenticateOutcome(e: Engine, b: Backends, username: string, password: string,
                            deviceInfo: string, ipAddress: string, mode: string)
    ensures var r := Authenticate(e, b, username, password, deviceInfo, ipAddress, mode);
      var primary := AuthenticatePrimary(e, b, username, ParsePassword(password).0);
      var target := PushTarget(username, deviceInfo, ipAddress);
      && (r.0 == PrimaryFailed <==> !primary.0)
      && (r.0 == PrimaryFailed ==> r.1 == primary.1)
      && (e.hasDirectory ==> primary == b.directory(username, ParsePassword(password).0))
      && (r.0 == Success <==>
            primary.0
            && match ChoiceOf(e.isDigit, password, mode)
               case UsePush =>
                 ProxyClient.AuthenticatePush(e.client, b.pushSend(target), b.pushPolls(target))
               case UseOtp(code) => ProxyClient.VerifyOtp(b.otpCheck(username, code))
               case NoFactor => false)
      && (r.0 == Error <==> primary.0 && ChoiceOf(e.isDigit, password, mode) == NoFactor)
  {
    SecondFactorChoice(e, b, PushTarget(username, deviceInfo, ipAddress), password, mode);
  }

  /** Any digit class holds every ASCII digit string. */
  lemma AsciiDigitsInClass(isDigit: DigitClass, f: string)
    requires IsDigits(Text.IsDigit, f)
    ensures IsDigits(isDigit, f)
  {
    forall i | 0 <= i < |f|
      ensures isDigit(f[i])
    {
      assert Text.IsDigit(f[i]);
    }
  }

  /** Whatever the digit class and the mode, a password ending in a comma
      and six or more ASCII digits sends those digits as an OTP code. */
  lemma AsciiCodeIsOtp(isDigit: DigitClass, realPassword: string, code: string, mode: string)
    requires |code| >= 6 && IsDigits(Text.IsDigit, code)
    ensures ChoiceOf(isDigit, realPassword + "," + code, mode) == UseOtp(code)
  {
    var password := realPassword + "," + code;
    assert ',' !in code by {
      assert forall i :: 0 <= i < |code| ==> Text.IsDigit(code[i]);
    }
    ParsePasswordUnique(password, realPassword, code);
    var k := LastComma(password);
    assert k.Some? && password[k.value + 1..] == code;
    AsciiDigitsInClass(isDigit, code);
    assert Text.Lower(code) != "push" by {
      assert |Text.Lower(code)| == |code|;
    }
  }

  /** Every mode other than "push" and "otp" behaves as "auto". */
  lemma OtherModesAlike(e: Engine, b: Backends, username: string, password: string,
                        deviceInfo: string, ipAddress: string, mode: string)
    requires mode != "push" && mode != "otp"
    ensures Authenticate(e, b, username, password, deviceInfo, ipAddress, mode)
            == Authenticate(e, b, username, password, deviceInfo, ipAddress, "auto")
  {
    var target := PushTarget(username, deviceInfo, ipAddress);
    var factor := ParsePassword(password).1;
    assert SecondFactor(e, b, target, factor, mode) == SecondFactor(e, b, target, factor, "auto");
  }

  /** Without an appended factor, mode "otp" is refused with a fixed
      message, and a directory that accepts the password is needed for
      any success. */
  lemma OtpModeNeedsCode(e: Engine, b: Backends, username: string, password: string,
                         deviceInfo: string, ipAddress: string)
    requires ',' !in password
    requires AuthenticatePrimary(e, b, username, password).0
    ensures Authenticate(e, b, username, password, deviceInfo, ipAddress, "otp")
            == (Error, "OTP code required")
  {
  }
}
