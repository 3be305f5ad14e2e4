/** The PAM module's configuration: an ini-style file of `key = value`
    lines read into a settings record, the exclusion and required-group
    policies over comma-separated lists, and the log-level filter.

    Opening the file, the user and group database (`getpwnam`,
    `getgrouplist`, `getgrnam`) and `syslog` are left to the caller: the
    file is its lines, the databases are the values and functions passed
    in, and a log call returns what would be handed to `syslog`. */
module PamConfig {
  import Text
  import opened Wrappers
  import opened CString

  const AuthMethodPush := 1
  const AuthMethodOtp := 2
  const AuthMethodBoth := 3

  const LogLevelDebug := 0
  const LogLevelInfo := 1
  const LogLevelWarn := 2
  const LogLevelError := 3

  /** Room for a value: a 512-byte buffer holds 511 characters. */
  const MaxValueLength := 511

  // ---------------------------------------------------------------------
  // trim

  predicate IsBlank(c: char) { c == ' ' || c == '\t' }
  predicate IsTrailing(c: char) { c == ' ' || c == '\t' || c == '\n' || c == '\r' }

  /** Where the spaces and tabs of `s[i..hi]` that lead it end. */
  function Lead(s: string, i: nat, hi: nat): (r: nat)
    requires i <= hi <= |s|
    ensures i <= r <= hi
    ensures r < hi ==> !IsBlank(s[r])
    ensures forall j :: i <= j < r ==> IsBlank(s[j])
    decreases hi - i
  {
    if i < hi && IsBlank(s[i]) then Lead(s, i + 1, hi) else i
  }

  /** Where `s[lo..e]` ends once its trailing spaces, tabs, CRs and LFs
      are dropped. */
  function Tail(s: string, lo: nat, e: nat): (r: nat)
    requires lo <= e <= |s|
    ensures lo <= r <= e
    ensures r > lo ==> !IsTrailing(s[r - 1])
    ensures forall j :: r <= j < e ==> IsTrailing(s[j])
    decreases e
  {
    if e > lo && IsTrailing(s[e - 1]) then Tail(s, lo, e - 1) else e
  }

  /** `trim` of the text `s[lo..hi]`: leading spaces and tabs go; trailing
      spaces, tabs, CRs and LFs go, but never the first remaining
      character, since the backward scan stops there (a lone "\n"
      stays). */
  function TrimIn(s: string, lo: nat, hi: nat): string
    requires lo <= hi <= |s|
  {
    var p := Lead(s, lo, hi);
    if p == hi then [] else s[p..Tail(s, p + 1, hi)]
  }

  function Trim(s: string): string
  {
    TrimIn(s, 0, |s|)
  }

  /** What `trim` leaves: nothing exactly when the input is all blanks;
      otherwise a string that starts with no blank and, past its first
      character, ends with no white space; and a second trim changes
      nothing. */
  lemma TrimProperties(s: string)
    ensures Trim(s) == [] <==> forall j :: 0 <= j < |s| ==> IsBlank(s[j])
    ensures Trim(s) != [] ==> !IsBlank(Trim(s)[0])
    ensures |Trim(s)| >= 2 ==> !IsTrailing(Trim(s)[|Trim(s)| - 1])
    ensures Trim(Trim(s)) == Trim(s)
  {
    var p := Lead(s, 0, |s|);
    if p < |s| {
      var q := Tail(s, p + 1, |s|);
      var t := s[p..q];
      assert Trim(s) == t && t[0] == s[p];
      assert Lead(t, 0, |t|) == 0;
      if q > p + 1 {
        assert t[|t| - 1] == s[q - 1];
      }
      assert Tail(t, 1, |t|) == |t|;
      assert t[0..|t|] == t;
    }
  }

  /** Once `trim` has found where the kept text starts (`p`) and ends
      (`e`), the NUL it writes after `e` leaves that text, the trim of
      the string, as the C string at `p`. */
  lemma TrimWritten(b0: seq<char>, start: nat, n: nat, p: nat, e: nat)
    requires start <= p <= e < n < |b0|
    requires forall j :: start <= j < n ==> b0[j] != '\0'
    requires p == Lead(b0, start, n) && e + 1 == Tail(b0, p + 1, n)
    ensures CStr(b0[e + 1 := '\0'], p) == TrimIn(b0, start, n)
    ensures |CStr(b0[e + 1 := '\0'], p)| == e + 1 - p
  {
    var b1 := b0[e + 1 := '\0'];
    NulWritten(b0, p, e + 1);
    assert b1[p..e + 1] == b0[p..e + 1];
  }

  /** `trim`'s forward scan: past the spaces and tabs from index `i`,
      stopping at the NUL at `n` at the latest. */
  method SkipBlanks(buf: array<char>, i: nat, ghost n: nat) returns (p: nat)
    requires i <= n < buf.Length && buf[n] == '\0'
    ensures p == Lead(buf[..], i, n)
  {
    p := i;
    while IsBlank(buf[p])
      invariant i <= p <= n
      invariant Lead(buf[..], i, n) == Lead(buf[..], p, n)
      decreases n - p
    {
      p := p + 1;
    }
  }

  /** `trim`'s backward scan: from `e` down past the trailing spaces,
      tabs, CRs and LFs, never below `p`; the result is the last index
      kept. */
  method SkipTrailing(buf: array<char>, p: nat, e: nat) returns (last: nat)
    requires p <= e < buf.Length
    ensures last + 1 == Tail(buf[..], p + 1, e + 1)
  {
    last := e;
    while last > p && IsTrailing(buf[last])
      invariant p <= last <= e
      invariant Tail(buf[..], p + 1, e + 1) == Tail(buf[..], p + 1, last + 1)
      decreases last
    {
      last := last - 1;
    }
  }

  /** `trim` on a buffer: skips the leading blanks, writes a NUL after
      the last character kept, and returns the index where the trimmed
      string starts. That NUL, inside the original string, is the only
      change to the buffer. */
  method TrimInPlace(buf: array<char>, start: nat) returns (p: nat)
    requires start < buf.Length && '\0' in buf[start..]
    modifies buf
    ensures start <= p < buf.Length
    ensures CStr(buf[..], p) == TrimIn(old(buf[..]), start, old(NulAt(buf[..], start)))
    ensures p + |CStr(buf[..], p)| <= start + |old(CStr(buf[..], start))|
    ensures buf[..] == old(buf[..])[p + |CStr(buf[..], p)| := '\0']
  {
    ghost var b0 := buf[..];
    NulFound(b0, start);
    ghost var n := NulAt(b0, start);
    p := SkipBlanks(buf, start, n);
    if buf[p] == '\0' {
      assert p == n && TrimIn(b0, start, n) == [];
      assert b0[n := '\0'] == b0;
      return;
    }
    NulAtLater(b0, start, p);
    var e := SkipTrailing(buf, p, p + |CStr(buf[..], p)| - 1);
    TrimWritten(b0, start, n, p, e);
    buf[e + 1] := '\0';
    assert buf[..] == b0[e + 1 := '\0'];
  }

  // ---------------------------------------------------------------------
  // Values

  /** The three values `auth_methods` can take. */
  predicate IsAuthMethods(m: int)
  {
    m == AuthMethodPush || m == AuthMethodOtp || m == AuthMethodBoth
  }

  /** `parse_auth_methods`: "push", "otp" or "both" in any case; anything
      else is both. */
  function ParseAuthMethods(value: string): (r: int)
    ensures IsAuthMethods(r)
    ensures r == AuthMethodPush <==> Text.EqualsIgnoreCase(value, "push")
    ensures r == AuthMethodOtp <==> Text.EqualsIgnoreCase(value, "otp")
  {
    if Text.EqualsIgnoreCase(value, "push") then AuthMethodPush
    else if Text.EqualsIgnoreCase(value, "otp") then AuthMethodOtp
    else AuthMethodBoth
  }

  /** `parse_log_level`: an unknown name is INFO. */
  function ParseLogLevel(value: string): (r: int)
    ensures LogLevelDebug <= r <= LogLevelError
    ensures r == LogLevelDebug <==> Text.EqualsIgnoreCase(value, "debug")
    ensures r == LogLevelWarn <==> Text.EqualsIgnoreCase(value, "warn")
    ensures r == LogLevelError <==> Text.EqualsIgnoreCase(value, "error")
  {
    if Text.EqualsIgnoreCase(value, "debug") then LogLevelDebug
    else if Text.EqualsIgnoreCase(value, "info") then LogLevelInfo
    else if Text.EqualsIgnoreCase(value, "warn") then LogLevelWarn
    else if Text.EqualsIgnoreCase(value, "error") then LogLevelError
    else LogLevelInfo
  }

  predicate IsSpace(c: char)
  {
    c == ' ' || c == '\t' || c == '\n' || c == '\r' || c == '\U{000B}' || c == '\U{000C}'
  }

  function DigitRun(s: string, acc: nat): nat
  {
    if s != [] && Text.IsDigit(s[0]) then DigitRun(s[1..], 10 * acc + (s[0] as int - '0' as int))
    else acc
  }

  /** `strtol` in base 10: optional white space and sign, then the longest
      run of digits (no digits give 0), saturated to the range of a 64-bit
      `long`. */
  function Strtol(s: string): (r: int)
    ensures LongMin <= r <= LongMax
  {
    if s != [] && IsSpace(s[0]) then Strtol(s[1..])
    else
      var v := if s != [] && s[0] == '-' then -(DigitRun(s[1..], 0) as int)
               else if s != [] && s[0] == '+' then DigitRun(s[1..], 0)
               else DigitRun(s, 0);
      if v > LongMax then LongMax else if v < LongMin then LongMin else v
  }

  const LongMin: int := -0x8000_0000_0000_0000
  const LongMax: int := 0x7fff_ffff_ffff_ffff

  /** The conversion of a `long` to a 32-bit `int`: the value modulo 2^32,
      read as two's complement. */
  function ToInt32(x: int): (r: int)
    ensures -0x8000_0000 <= r < 0x8000_0000
    ensures (r - x) % 0x1_0000_0000 == 0
  {
    var m := x % 0x1_0000_0000;
    if m >= 0x8000_0000 then m - 0x1_0000_0000 else m
  }

  /** glibc's `atoi`: `(int) strtol(s, NULL, 10)`. */
  function Atoi(s: string): (r: int)
    ensures -0x8000_0000 <= r < 0x8000_0000
    ensures -0x8000_0000 <= Strtol(s) < 0x8000_0000 ==> r == Strtol(s)
  {
    ToInt32(Strtol(s))
  }

  /** The timeout a `timeout` line sets: a value that is not positive
      gives the default of 60 seconds. */
  function TimeoutOf(value: string): (r: int)
    ensures 0 < r < 0x8000_0000
    ensures Atoi(value) > 0 ==> r == Atoi(value)
    ensures Atoi(value) <= 0 ==> r == 60
  {
    var t := Atoi(value);
    if t <= 0 then 60 else t
  }

  /** A timeout written within the range of `int` is taken as written when
      positive and falls back to 60 otherwise; one past that range wraps,
      so that 3000000000 seconds falls back to the default 60. */
  lemma TimeoutRange(value: string)
    ensures 0 < Strtol(value) < 0x8000_0000 ==> TimeoutOf(value) == Strtol(value)
    ensures -0x8000_0000 <= Strtol(value) <= 0 ==> TimeoutOf(value) == 60
    ensures TimeoutOf("3000000000") == 60
  {
    assert Strtol("3000000000") == 3000000000 by {
      assert "3000000000"[1..] == "000000000";
      assert DigitRun("3000000000", 0) == DigitRun("000000000", 3);
      assert "000000000"[1..] == "00000000";
      assert DigitRun("000000000", 3) == DigitRun("00000000", 30);
      assert "00000000"[1..] == "0000000";
      assert DigitRun("00000000", 30) == DigitRun("0000000", 300);
      assert "0000000"[1..] == "000000";
      assert DigitRun("0000000", 300) == DigitRun("000000", 3000);
      assert "000000"[1..] == "00000";
      assert DigitRun("000000", 3000) == DigitRun("00000", 30000);
      assert "00000"[1..] == "0000";
      assert DigitRun("00000", 30000) == DigitRun("0000", 300000);
      assert "0000"[1..] == "000";
      assert DigitRun("0000", 300000) == DigitRun("000", 3000000);
      assert "000"[1..] == "00";
      assert DigitRun("000", 3000000) == DigitRun("00", 30000000);
      assert "00"[1..] == "0";
      assert DigitRun("00", 30000000) == DigitRun("0", 300000000);
      assert "0"[1..] == "";
      assert DigitRun("0", 300000000) == DigitRun("", 3000000000);
      assert DigitRun("3000000000", 0) == 3000000000;
    }
    assert Atoi("3000000000") == 3000000000 - 0x1_0000_0000;
  }

  /** `strncpy(field, value, 511)` into a zeroed 512-byte field. */
  function Truncate(value: string): (r: string)
    ensures |r| <= MaxValueLength && |r| <= |value| && r == value[..|r|]
    ensures |value| <= MaxValueLength ==> r == value
    ensures |value| > MaxValueLength ==> |r| == MaxValueLength
  {
    if |value| <= MaxValueLength then value else value[..MaxValueLength]
  }

  // ---------------------------------------------------------------------
  // config_load

  /** `worldposta_config_t`. */
  datatype Settings = Settings(endpoint: string, integrationKey: string, secretKey: string,
                               timeout: int, authMethods: int, serviceName: string,
                               excludeUsers: string, requireGroups: string, logLevel: int)

  const Defaults := Settings("https://api.worldposta.com", "", "", 60, AuthMethodBoth,
                             "Linux SSH Login", "", "", LogLevelInfo)

  /** What a line says: nothing, or a key and a value. */
  datatype Line = Ignored | Assignment(key: string, value: string)

  /** A line after trimming: empty, a comment ('#' or ';'), a section
      header ('[') or a line without '=' is ignored; otherwise the trimmed
      text before the first '=' is the key and the trimmed rest the value. */
  function ParseLine(line: string): Line
  {
    var t := Trim(line);
    if t == [] || t[0] == '#' || t[0] == ';' || t[0] == '[' then Ignored
    else
      var eq := Text.Find(t, '=');
      if eq == |t| then Ignored
      else Assignment(Trim(t[..eq]), Trim(t[eq + 1..]))
  }

  /** One assignment's effect on the settings; unknown keys are
      ignored, strings are cut to their buffers, and the timeout, method
      set and log level are parsed. */
  function Assign(c: Settings, key: string, value: string): Settings
  {
    if key == "endpoint" then c.(endpoint := Truncate(value))
    else if key == "integration_key" then c.(integrationKey := Truncate(value))
    else if key == "secret_key" then c.(secretKey := Truncate(value))
    else if key == "timeout" then c.(timeout := TimeoutOf(value))
    else if key == "auth_methods" then c.(authMethods := ParseAuthMethods(value))
    else if key == "service_name" then c.(serviceName := Truncate(value))
    else if key == "exclude_users" then c.(excludeUsers := Truncate(value))
    else if key == "require_groups" then c.(requireGroups := Truncate(value))
    else if key == "log_level" then c.(logLevel := ParseLogLevel(value))
    else c
  }

  /** One line's effect on the settings. */
  function ApplyLine(c: Settings, line: string): Settings
  {
    match ParseLine(line)
    case Ignored => c
    case Assignment(key, value) => Assign(c, key, value)
  }

  /** The lines from index `i` on, in order. */
  function ApplyFrom(c: Settings, lines: seq<string>, i: nat): Settings
    requires i <= |lines|
    decreases |lines| - i
  {
    if i == |lines| then c else ApplyFrom(ApplyLine(c, lines[i]), lines, i + 1)
  }

  /** What every loaded configuration satisfies: a positive timeout, a
      known method set and log level, and values that fit their buffers. */
  predicate SettingsOk(c: Settings)
  {
    && c.timeout > 0
    && IsAuthMethods(c.authMethods)
    && LogLevelDebug <= c.logLevel <= LogLevelError
    && |c.endpoint| <= MaxValueLength && |c.integrationKey| <= MaxValueLength
    && |c.secretKey| <= MaxValueLength && |c.serviceName| <= MaxValueLength
    && |c.excludeUsers| <= MaxValueLength && |c.requireGroups| <= MaxValueLength
  }

  /** An assignment keeps every field within its buffer and range. */
  lemma AssignOk(c: Settings, key: string, value: string)
    requires SettingsOk(c)
    ensures SettingsOk(Assign(c, key, value))
  {
  }

  /** Of two assignments to the same key only the later counts; the
      keys set the field they name, and any other key changes nothing. */
  lemma AssignOverrides(c: Settings, key: string, value: string, later: string)
    ensures Assign(Assign(c, key, value), key, later) == Assign(c, key, later)
    ensures key == "secret_key" ==> Assign(c, key, value) == c.(secretKey := Truncate(value))
    ensures key == "integration_key" ==>
      Assign(c, key, value) == c.(integrationKey := Truncate(value))
    ensures key == "timeout" ==> Assign(c, key, value) == c.(timeout := TimeoutOf(value))
    ensures key !in {"endpoint", "integration_key", "secret_key", "timeout", "auth_methods",
                     "service_name", "exclude_users", "require_groups", "log_level"} ==>
      Assign(c, key, value) == c
  {
  }

  lemma {:induction false} ApplyFromOk(c: Settings, lines: seq<string>, i: nat)
    requires i <= |lines| && SettingsOk(c)
    ensures SettingsOk(ApplyFrom(c, lines, i))
    decreases |lines| - i
  {
    if i < |lines| {
      var line := ParseLine(lines[i]);
      if line.Assignment? {
        AssignOk(c, line.key, line.value);
      }
      ApplyFromOk(ApplyLine(c, lines[i]), lines, i + 1);
    }
  }

  /** An ignored line changes nothing, and of two lines setting the same
      key only the later one counts. */
  lemma LineEffects(c: Settings, first: string, second: string)
    ensures ParseLine(first).Ignored? ==> ApplyLine(c, first) == c
    ensures ParseLine(first).Assignment? && ParseLine(second).Assignment?
            && ParseLine(first).key == ParseLine(second).key ==>
              ApplyLine(ApplyLine(c, first), second) == ApplyLine(c, second)
  {
    var l1, l2 := ParseLine(first), ParseLine(second);
    if l1.Assignment? && l2.Assignment? && l1.key == l2.key {
      AssignOverrides(c, l1.key, l1.value, l2.value);
    }
  }

  /** Trimming removes exactly a blank prefix and a white-space suffix
      around text that starts with no blank and ends with no white
      space. */
  lemma {:induction false} TrimStrips(pre: string, body: string, post: string)
    requires forall j :: 0 <= j < |pre| ==> IsBlank(pre[j])
    requires forall j :: 0 <= j < |post| ==> IsTrailing(post[j])
    requires body != [] && !IsBlank(body[0]) && !IsTrailing(body[|body| - 1])
    ensures Trim(pre + body + post) == body
  {
    var x := pre + body + post;
    var p, q := |pre|, |pre| + |body|;
    assert x[p] == body[0] && x[q - 1] == body[|body| - 1];
    assert forall j :: 0 <= j < p ==> x[j] == pre[j];
    assert forall j :: q <= j < |x| ==> x[j] == post[j - q];
    assert Lead(x, 0, |x|) == p;
    assert Tail(x, p + 1, |x|) == q;
    assert x[p..q] == body;
  }

  /** The text of a line `key = value` once trimmed. */
  lemma AssignmentTrimmed(key: string, value: string) returns (t: string)
    requires key != [] && !IsBlank(key[0])
    requires value == [] || (!IsBlank(value[0]) && !IsTrailing(value[|value| - 1]))
    ensures Trim(key + " = " + value + "\n") == t
    ensures t == key + " =" + (if value == [] then [] else " " + value)
  {
    var line := key + " = " + value + "\n";
    t := key + " =" + (if value == [] then [] else " " + value);
    if value == [] {
      assert line == [] + t + " \n";
      TrimStrips([], t, " \n");
    } else {
      assert t[|t| - 1] == value[|value| - 1];
      assert line == [] + t + "\n";
      TrimStrips([], t, "\n");
    }
  }

  /** Where the `=` of a trimmed `key = value` is, and the texts around
      it once trimmed. */
  lemma AssignmentSplit(key: string, value: string, t: string)
    requires key != [] && !IsBlank(key[0]) && !IsTrailing(key[|key| - 1]) && '=' !in key
    requires value == [] || (!IsBlank(value[0]) && !IsTrailing(value[|value| - 1]))
    requires t == key + " =" + (if value == [] then [] else " " + value)
    ensures Text.Find(t, '=') == |key| + 1
    ensures Trim(t[..|key| + 1]) == key
    ensures Trim(t[|key| + 2..]) == value
  {
    var rest := if value == [] then [] else " " + value;
    assert t == (key + " ") + ("=" + rest);
    Text.FindAppend(key + " ", "=" + rest, '=');
    assert t[..|key| + 1] == [] + key + " ";
    TrimStrips([], key, " ");
    assert t[|key| + 2..] == rest;
    if value != [] {
      assert rest == " " + value + [];
      TrimStrips(" ", value, []);
    }
  }

  /** A line `key = value` with a plain key and value reads back as that
      assignment. */
  lemma AssignmentLine(key: string, value: string)
    requires key != [] && !IsBlank(key[0]) && !IsTrailing(key[|key| - 1])
    requires key[0] != '#' && key[0] != ';' && key[0] != '[' && '=' !in key
    requires value == [] || (!IsBlank(value[0]) && !IsTrailing(value[|value| - 1]))
    ensures ParseLine(key + " = " + value + "\n") == Assignment(key, value)
  {
    var t := AssignmentTrimmed(key, value);
    AssignmentSplit(key, value, t);
    assert t[0] == key[0];
  }

  /** A line whose first text is a comment mark is ignored. */
  lemma CommentLine(pad: string, mark: char, rest: string)
    requires forall j :: 0 <= j < |pad| ==> IsBlank(pad[j])
    requires mark == '#' || mark == ';' || mark == '['
    ensures ParseLine(pad + [mark] + rest) == Ignored
  {
    var x := pad + [mark] + rest;
    assert x[|pad|] == mark;
    assert forall j :: 0 <= j < |pad| ==> x[j] == pad[j];
    assert Lead(x, 0, |x|) == |pad|;
  }

  /** `config_load`: the defaults, then every line in order; `-1` when the
      file cannot be opened or either key is empty afterwards. */
  method Load(file: Option<seq<string>>) returns (rc: int, config: Settings)
    ensures file.None? ==> rc == -1 && config == Defaults
    ensures file.Some? ==> config == ApplyFrom(Defaults, file.value, 0)
    ensures file.Some? ==> (rc == 0 <==> config.integrationKey != "" && config.secretKey != "")
    ensures rc == 0 || rc == -1
    ensures SettingsOk(config)
  {
    config := Defaults;
    if file.None? {
      return -1, config;
    }
    var lines := file.value;
    ApplyFromOk(Defaults, lines, 0);
    var i := 0;
    while i < |lines|
      invariant 0 <= i <= |lines|
      invariant ApplyFrom(Defaults, lines, 0) == ApplyFrom(config, lines, i)
    {
      config := ApplyLine(config, lines[i]);
      i := i + 1;
    }
    if config.integrationKey == "" || config.secretKey == "" {
      return -1, config;
    }
    rc := 0;
  }

  // ---------------------------------------------------------------------
  // Lists

  /** The non-empty pieces of `s`, as `strtok_r(…, ",")` yields them. */
  function Tokens(s: string): (r: seq<string>)
  {
    NonEmpty(Text.Split(s, ','))
  }

  function NonEmpty(pieces: seq<string>): (r: seq<string>)
    ensures forall k :: 0 <= k < |r| ==> r[k] != [] && r[k] in pieces
    ensures (forall k :: 0 <= k < |pieces| ==> pieces[k] != []) ==> r == pieces
  {
    if pieces == [] then []
    else if pieces[0] == [] then NonEmpty(pieces[1..])
    else [pieces[0]] + NonEmpty(pieces[1..])
  }

  /** A user is excluded when some trimmed list entry equals the name
      exactly. */
  predicate Excluded(list: string, username: string)
  {
    exists k :: 0 <= k < |Tokens(list)| && Trim(Tokens(list)[k]) == username
  }

  /** `config_is_user_excluded`. */
  method IsUserExcluded(config: Settings, username: string) returns (excluded: bool)
    ensures excluded <==> Excluded(config.excludeUsers, username)
  {
    if |config.excludeUsers| == 0 {
      assert Tokens(config.excludeUsers) == [];
      return false;
    }
    var tokens := Tokens(config.excludeUsers);
    var k := 0;
    while k < |tokens|
      invariant 0 <= k <= |tokens|
      invariant forall j :: 0 <= j < k ==> Trim(tokens[j]) != username
    {
      if Trim(tokens[k]) == username {
        return true;
      }
      k := k + 1;
    }
    return false;
  }

  /** For a list written as plain names joined by commas, a user is
      excluded exactly when listed; the comparison is case-sensitive. */
  lemma ExcludedListed(names: seq<string>, username: string)
    requires |names| >= 1
    requires forall k :: 0 <= k < |names| ==> names[k] != [] && ',' !in names[k]
    requires forall k :: 0 <= k < |names| ==> Trim(names[k]) == names[k]
    ensures Excluded(Text.Join(names, ','), username) <==> username in names
  {
    Text.SplitJoin(names, ',');
    assert Tokens(Text.Join(names, ',')) == names;
    if username in names {
      var k :| 0 <= k < |names| && names[k] == username;
      assert Trim(names[k]) == username;
    }
  }

  /** A user is in a required group when the list is empty, or when the
      user is known and some listed group exists and is among the user's
      groups. `userGroups` is `None` for an unknown user or a failed group
      lookup; `groupId` is the group database. */
  predicate InRequiredGroups(list: string, userGroups: Option<seq<nat>>,
                             groupId: string -> Option<nat>)
  {
    list == "" ||
    (userGroups.Some? &&
     exists k :: 0 <= k < |Tokens(list)| && groupId(Trim(Tokens(list)[k])).Some?
                 && groupId(Trim(Tokens(list)[k])).value in userGroups.value)
  }

  /** The scan of the user's group list for one group id. */
  method HasGroup(groups: seq<nat>, gid: nat) returns (found: bool)
    ensures found <==> gid in groups
  {
    var i := 0;
    while i < |groups|
      invariant 0 <= i <= |groups|
      invariant forall j :: 0 <= j < i ==> groups[j] != gid
    {
      if groups[i] == gid {
        return true;
      }
      i := i + 1;
    }
    return false;
  }

  /** `config_is_user_in_required_group`. */
  method IsUserInRequiredGroup(config: Settings, userGroups: Option<seq<nat>>,
                               groupId: string -> Option<nat>) returns (member: bool)
    ensures member <==> InRequiredGroups(config.requireGroups, userGroups, groupId)
  {
    if |config.requireGroups| == 0 {
      return true;
    }
    if userGroups.None? {
      return false;
    }
    var groups := userGroups.value;
    var tokens := Tokens(config.requireGroups);
    var k := 0;
    while k < |tokens|
      invariant 0 <= k <= |tokens|
      invariant forall j :: 0 <= j < k ==>
        groupId(Trim(tokens[j])).None? || groupId(Trim(tokens[j])).value !in groups
    {
      var gid := groupId(Trim(tokens[k]));
      if gid.Some? {
        var found := HasGroup(groups, gid.value);
        if found {
          return true;
        }
      }
      k := k + 1;
    }
    return false;
  }

  // ---------------------------------------------------------------------
  // config_log

  /** syslog priorities. */
  const SyslogErr := 3
  const SyslogWarning := 4
  const SyslogInfo := 6
  const SyslogDebug := 7

  function SyslogPriority(level: int): int
  {
    if level == LogLevelDebug then SyslogDebug
    else if level == LogLevelInfo then SyslogInfo
    else if level == LogLevelWarn then SyslogWarning
    else if level == LogLevelError then SyslogErr
    else SyslogInfo
  }

  /** `config_log`: the priority and message passed to syslog, or `None`
      when the message is below the configured level. */
  function Log(config: Settings, level: int, message: string): (r: Option<(int, string)>)
    ensures r.None? <==> level < config.logLevel
    ensures r.Some? ==> r.value.1 == message
  {
    if level < config.logLevel then None else Some((SyslogPriority(level), message))
  }

  /** Raising the configured level never lets more messages through, and
      the four levels keep their order as syslog priorities. */
  lemma LogMonotone(config: Settings, stricter: int, level: int, message: string)
    requires stricter >= config.logLevel
    ensures Log(config.(logLevel := stricter), level, message).Some? ==> Log(config, level, message).Some?
    ensures SyslogPriority(LogLevelDebug) > SyslogPriority(LogLevelInfo)
              > SyslogPriority(LogLevelWarn) > SyslogPriority(LogLevelError)
  {
  }
}
