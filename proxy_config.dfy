/** The proxy's configuration reader: INI sections, as the INI parser
    splits them into a name and its options (keys lower-cased), are read
    one after the other into a `ConfigParser` whose configuration they
    update, and the result is checked. */
module ProxyConfig {
  import Text
  import opened Wrappers

  datatype MainConfig = MainConfig(logLevel: string, logFile: string, debug: bool)
  datatype ApiConfig = ApiConfig(endpoint: string, integrationKey: string, secretKey: string,
                                 pushTimeout: int)
  datatype AdClientConfig = AdClientConfig(name: string, host: string, port: int, useSsl: bool,
                                           baseDn: string, bindDn: string, bindPassword: string,
                                           searchFilter: string, searchAttribute: string)
  datatype RadiusClient = RadiusClient(ip: string, secret: string)
  datatype RadiusServerConfig = RadiusServerConfig(name: string, port: int, clientName: string,
                                                   mode: string, clients: seq<RadiusClient>,
                                                   failOpen: bool)
  datatype LdapServerConfig = LdapServerConfig(name: string, port: int, sslPort: int, useSsl: bool,
                                               sslCert: string, sslKey: string, clientName: string)

  type Options = map<string, string>

  const DefaultEndpoint := "https://api.worldposta.com"
  const DefaultLogFile := "/var/log/worldposta/authproxy.log"
  const DefaultMain := MainConfig("INFO", DefaultLogFile, false)
  const DefaultApi := ApiConfig(DefaultEndpoint, "", "", 60)

  /** `options.get(key, default)`. */
  function Get(options: Options, key: string, default: string): string
  {
    if key in options then options[key] else default
  }

  /** `options.get(key, "false").lower() == "true"`. */
  predicate Flag(options: Options, key: string)
  {
    Text.Lower(Get(options, key, "false")) == "true"
  }

  // ---------------------------------------------------------------------
  // int()

  /** The value of a run of digits and underscores; underscores are
      skipped. */
  function DigitsValue(s: string): (n: nat)
    requires forall i :: 0 <= i < |s| ==> Text.IsDigit(s[i]) || s[i] == '_'
  {
    if s == [] then 0
    else if s[|s| - 1] == '_' then DigitsValue(s[..|s| - 1])
    else
      assert Text.IsDigit(s[|s| - 1]);
      10 * DigitsValue(s[..|s| - 1]) + (s[|s| - 1] as int - '0' as int)
  }

  predicate AllDigits(s: string)
  {
    s != [] && forall i :: 0 <= i < |s| ==> Text.IsDigit(s[i])
  }

  /** A decimal integer literal as `int` takes it: digits, where single
      underscores may separate two digits (every underscore follows a
      digit, and the literal starts and ends with one). */
  predicate IntLiteral(s: string)
  {
    && s != [] && Text.IsDigit(s[0]) && Text.IsDigit(s[|s| - 1])
    && (forall i :: 0 <= i < |s| ==> Text.IsDigit(s[i]) || s[i] == '_')
    && forall i :: 0 < i < |s| && s[i] == '_' ==> Text.IsDigit(s[i - 1])
  }

  lemma DigitsAreLiteral(s: string)
    ensures AllDigits(s) ==> IntLiteral(s)
  {
  }

  /** Python's `int(s)` on an optional sign followed by a decimal literal;
      anything else raises, which is `None`. */
  function ParseInt(s: string): (r: Option<int>)
    ensures AllDigits(s) ==> r == Some(DigitsValue(s))
  {
    DigitsAreLiteral(s);
    if IntLiteral(s) then Some(DigitsValue(s))
    else if |s| >= 1 && (s[0] == '-' || s[0] == '+') && IntLiteral(s[1..]) then
      var magnitude: int := DigitsValue(s[1..]);
      Some(if s[0] == '-' then -magnitude else magnitude)
    else None
  }

  /** Underscores between digits are skipped; any other placement, like a
      leading, trailing or doubled underscore, raises. */
  lemma UnderscoreLiterals()
    ensures ParseInt("1_812") == Some(1812)
    ensures ParseInt("-6_0") == Some(-60)
    ensures ParseInt("_60") == None && ParseInt("60_") == None && ParseInt("6__0") == None
  {
    assert IntLiteral("1_812") && DigitsValue("1_812") == 1812 by {
      assert "1_812"[..4] == "1_81" && "1_81"[..3] == "1_8" && "1_8"[..2] == "1_";
      assert "1_"[..1] == "1" && "1"[..0] == "";
    }
    assert "-6_0"[1..] == "6_0";
    assert IntLiteral("6_0") && DigitsValue("6_0") == 60 by {
      assert "6_0"[..2] == "6_" && "6_"[..1] == "6" && "6"[..0] == "";
    }
    assert !IntLiteral("6__0") by { assert "6__0"[2] == '_' && !Text.IsDigit("6__0"[1]); }
  }

  lemma {:induction false} DigitsOfNat(n: nat)
    ensures AllDigits(Text.NatToString(n))
    ensures DigitsValue(Text.NatToString(n)) == n
    decreases n
  {
    var s := Text.NatToString(n);
    if n >= 10 {
      DigitsOfNat(n / 10);
      assert s[..|s| - 1] == Text.NatToString(n / 10);
    }
  }

  /** Every integer written in decimal reads back as itself. */
  lemma ParseIntRoundTrip(n: int)
    ensures ParseInt(Text.IntToString(n)) == Some(n)
  {
    var s := Text.IntToString(n);
    if n < 0 {
      DigitsOfNat(-n);
      assert s[1..] == Text.NatToString(-n);
      assert !AllDigits(s) by { assert s[0] == '-'; }
    } else {
      DigitsOfNat(n);
    }
  }

  /** `int(options.get(key, default))`. */
  function GetInt(options: Options, key: string, default: string): Option<int>
  {
    ParseInt(Get(options, key, default))
  }

  // ---------------------------------------------------------------------
  // Sections

  /** `_parse_main`. */
  function ParseMain(options: Options): MainConfig
  {
    MainConfig(Text.Upper(Get(options, "log_level", "INFO")),
               Get(options, "log_file", DefaultLogFile),
               Flag(options, "debug"))
  }

  /** `_parse_api`: the endpoint and both keys are assigned before
      `push_timeout` is converted, so a timeout that is not an integer
      leaves them set, keeps the old timeout and raises (`false`). */
  function ParseApi(api: ApiConfig, options: Options): (r: (ApiConfig, bool))
  {
    var partial := api.(endpoint := Get(options, "endpoint", DefaultEndpoint),
                        integrationKey := Get(options, "integration_key", ""),
                        secretKey := Get(options, "secret_key", ""));
    match GetInt(options, "push_timeout", "60")
    case None => (partial, false)
    case Some(timeout) => (partial.(pushTimeout := timeout), true)
  }

  /** `_parse_ad_client`. */
  function ParseAdClient(section: string, options: Options): Option<AdClientConfig>
  {
    match GetInt(options, "port", "389")
    case None => None
    case Some(port) =>
      Some(AdClientConfig(section, Get(options, "host", ""), port, Flag(options, "use_ssl"),
                          Get(options, "base_dn", ""), Get(options, "bind_dn", ""),
                          Get(options, "bind_password", ""),
                          Get(options, "search_filter", "(sAMAccountName={username})"),
                          Get(options, "search_attribute", "sAMAccountName")))
  }

  /** The RADIUS mode named by the section: "_auto", then "_concat", then
      "_challenge" are looked for; the default is "auto". */
  function RadiusMode(section: string): (mode: string)
    ensures mode in {"auto", "concat", "challenge"}
    ensures Text.ContainsSub(section, "_auto") ==> mode == "auto"
    ensures mode == "concat" <==>
              !Text.ContainsSub(section, "_auto") && Text.ContainsSub(section, "_concat")
    ensures mode == "challenge" <==>
              !Text.ContainsSub(section, "_auto") && !Text.ContainsSub(section, "_concat")
              && Text.ContainsSub(section, "_challenge")
  {
    if Text.ContainsSub(section, "_auto") then "auto"
    else if Text.ContainsSub(section, "_concat") then "concat"
    else if Text.ContainsSub(section, "_challenge") then "challenge"
    else "auto"
  }

  function IpKey(i: nat): string
  {
    "radius_ip_" + Text.NatToString(i)
  }

  function SecretKey(i: nat): string
  {
    "radius_secret_" + Text.NatToString(i)
  }

  /** Distinct client numbers give distinct option names. */
  lemma IpKeyInjective(i: nat, j: nat)
    requires IpKey(i) == IpKey(j)
    ensures i == j
  {
    var p := "radius_ip_";
    assert IpKey(i)[|p|..] == Text.NatToString(i);
    assert IpKey(j)[|p|..] == Text.NatToString(j);
    Text.NatToStringInjective(i, j);
  }

  /** The option names radius_ip_1 .. radius_ip_n. */
  function IpKeys(n: nat): set<string>
  {
    if n == 0 then {} else IpKeys(n - 1) + {IpKey(n)}
  }

  lemma {:induction false} IpKeyNotEarlier(n: nat, m: nat)
    requires m < n
    ensures IpKey(n) !in IpKeys(m)
  {
    if m > 0 {
      IpKeyNotEarlier(n, m - 1);
      if IpKey(n) == IpKey(m) {
        IpKeyInjective(n, m);
      }
    }
  }

  lemma {:induction false} IpKeysCard(n: nat)
    ensures |IpKeys(n)| == n
  {
    if n > 0 {
      IpKeysCard(n - 1);
      IpKeyNotEarlier(n, n - 1);
    }
  }

  lemma {:induction false} IpKeysIn(options: Options, n: nat)
    requires forall j: nat :: 1 <= j <= n ==> IpKey(j) in options
    ensures IpKeys(n) <= options.Keys
  {
    if n > 0 {
      IpKeysIn(options, n - 1);
    }
  }

  lemma {:induction false} SubsetCard(a: set<string>, b: set<string>)
    requires a <= b
    ensures |a| <= |b|
  {
    if a != {} {
      var x :| x in a;
      SubsetCard(a - {x}, b - {x});
    }
  }

  /** There are never more consecutive client numbers than options, so
      the scan for clients ends. */
  lemma KeysBound(options: Options, n: nat)
    requires forall j: nat :: 1 <= j <= n ==> IpKey(j) in options
    ensures n <= |options|
  {
    IpKeysCard(n);
    IpKeysIn(options, n);
    SubsetCard(IpKeys(n), options.Keys);
  }

  /** The clients from number `i` on: one per consecutive `radius_ip_<k>`,
      with `radius_secret_<k>` or "" as its secret, up to the first
      missing number. */
  function ClientsFrom(options: Options, i: nat): (r: seq<RadiusClient>)
    requires i >= 1
    requires forall j: nat :: 1 <= j < i ==> IpKey(j) in options
    ensures forall k :: i <= k < i + |r| ==>
      IpKey(k) in options
      && r[k - i] == RadiusClient(options[IpKey(k)], Get(options, SecretKey(k), ""))
    ensures IpKey(i + |r|) !in options
    decreases |options| - i
  {
    if IpKey(i) in options then
      KeysBound(options, i);
      var rest := ClientsFrom(options, i + 1);
      [RadiusClient(options[IpKey(i)], Get(options, SecretKey(i), ""))] + rest
    else []
  }

  /** `_parse_radius_server`, with the clients already read. */
  function ParseRadiusServer(section: string, options: Options, clients: seq<RadiusClient>)
    : Option<RadiusServerConfig>
  {
    match GetInt(options, "port", "1812")
    case None => None
    case Some(port) =>
      Some(RadiusServerConfig(section, port, Get(options, "client", ""), RadiusMode(section),
                              clients, Flag(options, "fail_open")))
  }

  /** `_parse_ldap_server`. */
  function ParseLdapServer(section: string, options: Options): Option<LdapServerConfig>
  {
    match GetInt(options, "port", "389")
    case None => None
    case Some(port) =>
      match GetInt(options, "ssl_port", "636")
      case None => None
      case Some(sslPort) =>
        Some(LdapServerConfig(section, port, sslPort, Flag(options, "use_ssl"),
                              Get(options, "ssl_cert", ""), Get(options, "ssl_key", ""),
                              Get(options, "client", "")))
  }

  predicate StartsWith(s: string, p: string)
  {
    |p| <= |s| && s[..|p|] == p
  }

  /** `ProxyConfig`. */
  datatype Config = Config(main: MainConfig, api: ApiConfig,
                           adClients: map<string, AdClientConfig>,
                           radiusServers: map<string, RadiusServerConfig>,
                           ldapServers: map<string, LdapServerConfig>)

  const DefaultConfig := Config(DefaultMain, DefaultApi, map[], map[], map[])

  /** `_parse_section` applied to `c`: the configuration afterwards, and
      `false` when a conversion raised. */
  function ApplySection(c: Config, section: string, options: Options): (Config, bool)
  {
    if section == "main" then (c.(main := ParseMain(options)), true)
    else if section == "worldposta_api" then
      var (api, ok) := ParseApi(c.api, options);
      (c.(api := api), ok)
    else if StartsWith(section, "ad_client") then
      match ParseAdClient(section, options)
      case None => (c, false)
      case Some(client) => (c.(adClients := c.adClients[section := client]), true)
    else if StartsWith(section, "radius_server") then
      match ParseRadiusServer(section, options, ClientsFrom(options, 1))
      case None => (c, false)
      case Some(server) => (c.(radiusServers := c.radiusServers[section := server]), true)
    else if StartsWith(section, "ldap_server") then
      match ParseLdapServer(section, options)
      case None => (c, false)
      case Some(server) => (c.(ldapServers := c.ldapServers[section := server]), true)
    else (c, true)
  }

  /** The sections from index `i` on, stopping at the first that raises. */
  function ParseFrom(c: Config, sections: seq<(string, Options)>, i: nat): (Config, bool)
    requires i <= |sections|
    decreases |sections| - i
  {
    if i == |sections| then (c, true)
    else
      var (next, ok) := ApplySection(c, sections[i].0, sections[i].1);
      if ok then ParseFrom(next, sections, i + 1) else (next, false)
  }

  /** The sections configparser hands over, in order, up to the first
      whose values cannot be interpolated. */
  function Readable(sections: seq<(string, Option<Options>)>): (r: seq<(string, Options)>)
    ensures |r| <= |sections|
    ensures forall i :: 0 <= i < |r| ==> sections[i] == (r[i].0, Some(r[i].1))
    ensures |r| < |sections| ==> sections[|r|].1.None?
  {
    if sections == [] || sections[0].1.None? then []
    else [(sections[0].0, sections[0].1.value)] + Readable(sections[1..])
  }

  /** Each section touches only its own part of the configuration: the
      named server map gains exactly that section, an unknown section
      changes nothing, and only the API section can raise after changing
      anything. */
  lemma SectionScope(c: Config, section: string, options: Options)
    ensures var (d, ok) := ApplySection(c, section, options);
      && (section == "main" ==> ok && d == c.(main := d.main))
      && (section == "worldposta_api" ==> d == c.(api := d.api))
      && (section != "main" && section != "worldposta_api" ==> d.main == c.main && d.api == c.api)
      && d.adClients.Keys <= c.adClients.Keys + {section}
      && d.radiusServers.Keys <= c.radiusServers.Keys + {section}
      && d.ldapServers.Keys <= c.ldapServers.Keys + {section}
      && (!ok && section != "worldposta_api" ==> d == c)
      && (section != "main" && section != "worldposta_api" && !StartsWith(section, "ad_client")
          && !StartsWith(section, "radius_server") && !StartsWith(section, "ldap_server")
          ==> ok && d == c)
  {
  }

  /** A radius_server section that parses is stored under its own name,
      with the mode its name selects and all its consecutive clients. */
  lemma RadiusSectionStored(c: Config, section: string, options: Options)
    requires section != "main" && section != "worldposta_api"
    requires !StartsWith(section, "ad_client") && StartsWith(section, "radius_server")
    requires GetInt(options, "port", "1812").Some?
    ensures var (d, ok) := ApplySection(c, section, options);
      && ok && section in d.radiusServers
      && d.radiusServers[section].name == section
      && d.radiusServers[section].port == GetInt(options, "port", "1812").value
      && d.radiusServers[section].mode == RadiusMode(section)
      && d.radiusServers[section].clients == ClientsFrom(options, 1)
      && d.adClients == c.adClients && d.ldapServers == c.ldapServers
  {
  }

  /** A worldposta_api section keeps its credentials even when its
      timeout does not parse. */
  lemma ApiCredentialsKept(c: Config, options: Options)
    ensures var (d, ok) := ApplySection(c, "worldposta_api", options);
      && d.api.integrationKey == Get(options, "integration_key", "")
      && d.api.secretKey == Get(options, "secret_key", "")
      && (ok <==> GetInt(options, "push_timeout", "60").Some?)
      && (ok ==> d.api.pushTimeout == GetInt(options, "push_timeout", "60").value)
      && (!ok ==> d.api.pushTimeout == c.api.pushTimeout)
  {
  }

  /** Sections without options give the documented defaults: log level
      INFO, no debugging, the public endpoint and a 60-second push
      timeout. */
  lemma SectionDefaults(c: Config)
    ensures ApplySection(c, "main", map[]) == (c.(main := DefaultMain), true)
    ensures ApplySection(c, "worldposta_api", map[]) == (c.(api := DefaultApi), true)
  {
    assert Text.Upper("INFO") == "INFO";
    assert Text.Lower("false") == "false";
    ParseIntRoundTrip(60);
    assert Text.IntToString(60) == "60";
  }

  /** The problems `_validate_config` reports, as a set: missing API
      credentials, a server that names an AD client that does not exist,
      and a RADIUS server without clients. */
  function ValidationErrors(c: Config): set<string>
  {
    (if c.api.integrationKey == "" then {"worldposta_api.integration_key is required"} else {})
    + (if c.api.secretKey == "" then {"worldposta_api.secret_key is required"} else {})
    + (set name | name in c.radiusServers && c.radiusServers[name].clientName != ""
                  && c.radiusServers[name].clientName !in c.adClients
         :: name + ".client '" + c.radiusServers[name].clientName + "' not found")
    + (set name | name in c.radiusServers && c.radiusServers[name].clients == []
         :: name + " has no RADIUS clients configured")
    + (set name | name in c.ldapServers && c.ldapServers[name].clientName != ""
                  && c.ldapServers[name].clientName !in c.adClients
         :: name + ".client '" + c.ldapServers[name].clientName + "' not found")
  }

  /** What a valid configuration is, stated directly. */
  predicate WellFormed(c: Config)
  {
    && c.api.integrationKey != "" && c.api.secretKey != ""
    && (forall name :: name in c.radiusServers ==>
          (c.radiusServers[name].clientName == ""
           || c.radiusServers[name].clientName in c.adClients)
          && c.radiusServers[name].clients != [])
    && (forall name :: name in c.ldapServers ==>
          c.ldapServers[name].clientName == "" || c.ldapServers[name].clientName in c.adClients)
  }

  /** Validation reports nothing exactly when the configuration is well
      formed. */
  lemma ValidIff(c: Config)
    ensures ValidationErrors(c) == {} <==> WellFormed(c)
  {
    var errs := ValidationErrors(c);
    forall name | name in c.radiusServers && c.radiusServers[name].clientName != ""
                  && c.radiusServers[name].clientName !in c.adClients
      ensures errs != {}
    {
      assert name + ".client '" + c.radiusServers[name].clientName + "' not found" in errs;
    }
    forall name | name in c.radiusServers && c.radiusServers[name].clients == []
      ensures errs != {}
    {
      assert name + " has no RADIUS clients configured" in errs;
    }
    forall name | name in c.ldapServers && c.ldapServers[name].clientName != ""
                  && c.ldapServers[name].clientName !in c.adClients
      ensures errs != {}
    {
      assert name + ".client '" + c.ldapServers[name].clientName + "' not found" in errs;
    }
    if c.api.integrationKey == "" {
      assert "worldposta_api.integration_key is required" in errs;
    }
    if c.api.secretKey == "" {
      assert "worldposta_api.secret_key is required" in errs;
    }
  }

  /** A configuration whose worldposta_api section is missing or empty is
      rejected for both missing keys, whatever its other sections hold. */
  lemma DefaultRejected(c: Config)
    requires c.api == DefaultApi
    ensures "worldposta_api.integration_key is required" in ValidationErrors(c)
    ensures "worldposta_api.secret_key is required" in ValidationErrors(c)
    ensures !WellFormed(c)
  {
  }

  /** `ConfigParser`: the configuration it builds, section by section. */
  class ConfigParser {
    var config: Config

    constructor ()
      ensures config == DefaultConfig
    {
      config := DefaultConfig;
    }

    /** The `while` loop of `_parse_radius_server`. */
    static method ReadClients(options: Options) returns (clients: seq<RadiusClient>)
      ensures clients == ClientsFrom(options, 1)
    {
      clients := [];
      var i: nat := 1;
      while IpKey(i) in options
        invariant i >= 1
        invariant forall j: nat :: 1 <= j < i ==> IpKey(j) in options
        invariant clients + ClientsFrom(options, i) == ClientsFrom(options, 1)
        decreases |options| - i
      {
        KeysBound(options, i);
        var client := RadiusClient(options[IpKey(i)], Get(options, SecretKey(i), ""));
        assert ClientsFrom(options, i) == [client] + ClientsFrom(options, i + 1);
        clients := clients + [client];
        i := i + 1;
      }
    }

    /** `_parse_section`; `ok` is false where Python raises. */
    method ParseSection(section: string, options: Options) returns (ok: bool)
      modifies this
      ensures (config, ok) == ApplySection(old(config), section, options)
    {
      ok := true;
      if section == "main" {
        config := config.(main := ParseMain(options));
      } else if section == "worldposta_api" {
        var (api, parsed) := ParseApi(config.api, options);
        config := config.(api := api);
        ok := parsed;
      } else if StartsWith(section, "ad_client") {
        var client := ParseAdClient(section, options);
        if client.None? {
          return false;
        }
        config := config.(adClients := config.adClients[section := client.value]);
      } else if StartsWith(section, "radius_server") {
        var clients := ReadClients(options);
        var server := ParseRadiusServer(section, options, clients);
        if server.None? {
          return false;
        }
        config := config.(radiusServers := config.radiusServers[section := server.value]);
      } else if StartsWith(section, "ldap_server") {
        var server := ParseLdapServer(section, options);
        if server.None? {
          return false;
        }
        config := config.(ldapServers := config.ldapServers[section := server.value]);
      }
    }

    /** `_validate_config`: true when there is nothing to report. */
    method Validate() returns (ok: bool)
      ensures ok <==> WellFormed(config)
    {
      ValidIff(config);
      ok := ValidationErrors(config) == {};
    }

    /** `parse`: configparser's reading, then every section in order,
        then validation; `false` is a raised error. `read` is `None` when
        reading the file raises (a missing section header, a duplicate
        section or option), and a section's options are `None` when
        `dict(parser[section])` raises while interpolating its values. */
    method Parse(read: Option<seq<(string, Option<Options>)>>) returns (ok: bool)
      modifies this
      ensures read.None? ==> !ok && config == old(config)
      ensures read.Some? ==> config == ParseFrom(old(config), Readable(read.value), 0).0
      ensures ok <==> read.Some? && |Readable(read.value)| == |read.value|
                      && ParseFrom(old(config), Readable(read.value), 0).1 && WellFormed(config)
    {
      if read.None? {
        return false;
      }
      var sections := read.value;
      ghost var readable := Readable(sections);
      var i := 0;
      while i < |sections|
        invariant 0 <= i <= |sections| && i <= |readable|
        invariant ParseFrom(old(config), readable, 0) == ParseFrom(config, readable, i)
      {
        if sections[i].1.None? {
          return false;
        }
        var parsed := ParseSection(sections[i].0, sections[i].1.value);
        if !parsed {
          return false;
        }
        i := i + 1;
      }
      ok := Validate();
    }
  }
}
