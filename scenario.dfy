/** Which logon scenarios the credential provider and its filter take part
    in, read from the per-scenario registry entries, and the remote-session
    test those entries depend on. */
module Scenario {
  import Text
  import opened Wrappers

  /** `CREDENTIAL_PROVIDER_USAGE_SCENARIO` values. */
  const CPUS_INVALID: int := 0
  const CPUS_LOGON: int := 1
  const CPUS_UNLOCK_WORKSTATION: int := 2
  const CPUS_CHANGE_PASSWORD: int := 3
  const CPUS_CREDUI: int := 4
  const CPUS_PLAP: int := 5

  /** Who asks: the filter, the provider, or an invalid caller code. */
  datatype Caller = Filter | Provider | OtherCaller(code: int)

  /** The registry value that configures scenario `cpus`, if it has one
      (`cpus_logon`, `cpus_unlock`, `cpus_credui`). */
  function EntryName(cpus: int): (r: string)
    ensures r != "" <==> cpus in {CPUS_LOGON, CPUS_UNLOCK_WORKSTATION, CPUS_CREDUI}
  {
    if cpus == CPUS_LOGON then "cpus_logon"
    else if cpus == CPUS_UNLOCK_WORKSTATION then "cpus_unlock"
    else if cpus == CPUS_CREDUI then "cpus_credui"
    else ""
  }

  /** `getRegistry`: a missing value reads as "". */
  function Lookup(registry: map<string, string>, name: string): string
  {
    if name in registry then registry[name] else ""
  }

  /** What `IsCurrentSessionRemote` asks the system: whether the
      remote-session metric is set, the console ("glass") session id if the
      registry lookup succeeds, and the current process's session id if
      that lookup succeeds. */
  datatype Session = Session(remoteMetric: bool, glassSessionId: Option<int>,
                             currentSessionId: Option<int>)

  /** `IsRequiredForScenario`: the session is classified by
      `IsCurrentSessionRemote` before the entry is read. */
  function IsRequiredForScenario(cpus: int, caller: Caller, registry: map<string, string>,
                                 session: Session): (r: bool)
  {
    var isRemote := IsCurrentSessionRemote(session);
    if caller.OtherCaller? then false
    else if EntryName(cpus) == "" then false
    else
      var entry := Lookup(registry, EntryName(cpus));
      var lockScreen := cpus == CPUS_LOGON || cpus == CPUS_UNLOCK_WORKSTATION;
      if entry == "" then true
      else if caller.Filter? then
        entry == "0e" || (entry == "1e" && isRemote) || (entry == "2e" && (!isRemote || lockScreen))
      else
        (entry[0] == '1' && isRemote) || (entry[0] == '2' && (!isRemote || lockScreen))
        || entry[0] == '0'
  }

  /** Only the filter and the provider are answered, and only for logon,
      unlock and CredUI; an unconfigured scenario is enabled. */
  lemma RequiredCases(cpus: int, caller: Caller, registry: map<string, string>, session: Session)
    ensures caller.OtherCaller? ==> !IsRequiredForScenario(cpus, caller, registry, session)
    ensures cpus !in {CPUS_LOGON, CPUS_UNLOCK_WORKSTATION, CPUS_CREDUI} ==>
              !IsRequiredForScenario(cpus, caller, registry, session)
    ensures !caller.OtherCaller? && cpus in {CPUS_LOGON, CPUS_UNLOCK_WORKSTATION, CPUS_CREDUI}
            && Lookup(registry, EntryName(cpus)) == "" ==>
              IsRequiredForScenario(cpus, caller, registry, session)
  {
  }

  /** The provider's reading of the first character of the entry:
      0 everywhere, 1 remote only, 2 local only (logon and unlock
      always), anything else disabled. */
  lemma ProviderModes(cpus: int, registry: map<string, string>, session: Session)
    requires cpus in {CPUS_LOGON, CPUS_UNLOCK_WORKSTATION, CPUS_CREDUI}
    requires Lookup(registry, EntryName(cpus)) != ""
    ensures var e := Lookup(registry, EntryName(cpus));
      IsRequiredForScenario(cpus, Provider, registry, session) <==>
        match e[0]
        case '0' => true
        case '1' => IsCurrentSessionRemote(session)
        case '2' => !IsCurrentSessionRemote(session) || cpus != CPUS_CREDUI
        case _ => false
  {
  }

  /** The filter never hides the other providers in a scenario where the
      provider itself is not enumerated: whenever the filter is required,
      so is the provider. */
  lemma FilterImpliesProvider(cpus: int, registry: map<string, string>, session: Session)
    ensures IsRequiredForScenario(cpus, Filter, registry, session) ==>
            IsRequiredForScenario(cpus, Provider, registry, session)
  {
    var entry := Lookup(registry, EntryName(cpus));
    if IsRequiredForScenario(cpus, Filter, registry, session) && entry != "" {
      assert entry == "0e" || entry == "1e" || entry == "2e";
      assert entry[0] == "0e"[0] || entry[0] == "1e"[0] || entry[0] == "2e"[0];
    }
  }

  /** The filter takes only the exact entries "0e", "1e" and "2e": any
      other non-empty entry leaves the other providers visible. */
  lemma FilterNeedsE(cpus: int, registry: map<string, string>, session: Session)
    requires Lookup(registry, EntryName(cpus)) !in {"", "0e", "1e", "2e"}
    ensures !IsRequiredForScenario(cpus, Filter, registry, session)
  {
  }

  /** `IsCurrentSessionRemote`: a remote-desktop session is remote;
      otherwise the session is remote when the console ("glass") session
      id can be read and differs from the current one. The test fails
      safe: whatever lookup fails, the session counts as local. */
  function IsCurrentSessionRemote(session: Session): (r: bool)
    ensures session.remoteMetric ==> r
    ensures (!session.remoteMetric
             && (session.glassSessionId.None? || session.currentSessionId.None?)) ==> !r
  {
    if session.remoteMetric then true
    else match session.glassSessionId
      case None => false
      case Some(glass) =>
        match session.currentSessionId
        case None => false
        case Some(current) => current != glass
  }

  /** An entry starting with '1' enumerates the provider exactly in a
      remote session: one with the remote-session metric set, or one whose
      id is known and differs from the known console session id. With
      the entry "1e" the filter follows the same rule. */
  lemma RemoteEntryFollowsSession(cpus: int, registry: map<string, string>, session: Session)
    requires cpus in {CPUS_LOGON, CPUS_UNLOCK_WORKSTATION, CPUS_CREDUI}
    requires var e := Lookup(registry, EntryName(cpus)); e != "" && e[0] == '1'
    ensures var remote := session.remoteMetric
                          || (session.glassSessionId.Some? && session.currentSessionId.Some?
                              && session.glassSessionId.value != session.currentSessionId.value);
            && (IsRequiredForScenario(cpus, Provider, registry, session) <==> remote)
            && (Lookup(registry, EntryName(cpus)) == "1e" ==>
                  (IsRequiredForScenario(cpus, Filter, registry, session) <==> remote))
  {
  }

  /** `CPUStoString`. */
  function CPUStoString(cpus: int): (r: string)
  {
    if cpus == CPUS_LOGON then "CPUS_LOGON"
    else if cpus == CPUS_UNLOCK_WORKSTATION then "CPUS_UNLOCK_WORKSTATION"
    else if cpus == CPUS_CREDUI then "CPUS_CREDUI"
    else if cpus == CPUS_CHANGE_PASSWORD then "CPUS_CHANGE_PASSWORD"
    else if cpus == CPUS_PLAP then "CPUS_PLAP"
    else if cpus == CPUS_INVALID then "CPUS_INVALID"
    else "Unknown CPUS: " + Text.IntToString(cpus)
  }

  /** Different scenarios get different names. */
  lemma CPUStoStringInjective(a: int, b: int)
    requires CPUStoString(a) == CPUStoString(b)
    ensures a == b
  {
    var known := {CPUS_LOGON, CPUS_UNLOCK_WORKSTATION, CPUS_CREDUI, CPUS_CHANGE_PASSWORD,
                  CPUS_PLAP, CPUS_INVALID};
    if a in known && b in known {
    } else if a !in known && b !in known {
      var p := "Unknown CPUS: ";
      assert CPUStoString(a)[|p|..] == Text.IntToString(a);
      assert CPUStoString(b)[|p|..] == Text.IntToString(b);
      Text.IntToStringInjective(a, b);
    } else if a in known {
      KnownUnknownDiffer(a, b);
    } else {
      KnownUnknownDiffer(b, a);
    }
  }

  lemma KnownUnknownDiffer(k: int, u: int)
    requires k in {CPUS_LOGON, CPUS_UNLOCK_WORKSTATION, CPUS_CREDUI, CPUS_CHANGE_PASSWORD,
                   CPUS_PLAP, CPUS_INVALID}
    requires u !in {CPUS_LOGON, CPUS_UNLOCK_WORKSTATION, CPUS_CREDUI, CPUS_CHANGE_PASSWORD,
                    CPUS_PLAP, CPUS_INVALID}
    ensures CPUStoString(k) != CPUStoString(u)
  {
    assert CPUStoString(k)[0] == 'C' && CPUStoString(u)[0] == 'U';
  }
}
