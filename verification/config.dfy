/** The validated configuration of a node and the announcement it starts from. */
module Config {
  import opened Wrappers
  import opened Text
  import opened Ordering
  import opened Types
  import opened Announcements
  import opened Signing
  import opened Txt
  import opened RoundTrips
  import C = Capabilities

  datatype ZeroConfConfig = ZeroConfConfig(
    agentId: string,
    role: string,
    project: string,
    branch: string,
    port: Port,
    mdnsPort: Port,
    serviceType: string,
    initialStatus: AgentStatus,
    heartbeatInterval: nat,
    ttl: nat,
    eventCapacity: nat,
    capabilities: seq<string>,
    metadata: Metadata,
    advertiseLocal: bool,
    sharedSecretAuth: Option<SharedSecretAuth>)

  predicate EndsWith(s: string, suffix: string) {
    |suffix| <= |s| && s[|s| - |suffix|..] == suffix
  }

  predicate IsValidServiceType(serviceType: string) {
    && "_" <= serviceType
    && EndsWith(serviceType, ".local.")
    && (Contains(serviceType, "._tcp.") || Contains(serviceType, "._udp."))
  }

  const DEFAULT_SERVICE_TYPE := "_agent-mesh._tcp.local."

  predicate IsCut(s: string, front: string, part: string, back: string) {
    s == front + part + back
  }

  ghost predicate HasPart(s: string, part: string) {
    exists front, back :: IsCut(s, front, part, back)
  }

  /** It begins with an underscore, ends in `.local.`, and names a transport somewhere. */
  ghost predicate IsServiceType(s: string) {
    && (exists back :: IsCut(s, "", "_", back))
    && (exists front :: IsCut(s, front, ".local.", ""))
    && (HasPart(s, "._tcp.") || HasPart(s, "._udp."))
  }

  lemma ContainsIsHasPart(s: string, part: string)
    ensures Contains(s, part) <==> HasPart(s, part)
  {
    if Contains(s, part) {
      var i :| 0 <= i <= |s| && At(s, part, i);
      assert IsCut(s, s[..i], part, s[i + |part|..]);
    }
    if front, back :| IsCut(s, front, part, back) {
      assert At(s, part, |front|);
    }
  }

  /** A service type is refused exactly if it does not begin with an underscore, does not end in `.local.`,
      or cannot be cut at a transport. */
  lemma ServiceTypeIff(s: string)
    ensures IsValidServiceType(s) <==> IsServiceType(s)
  {
    ContainsIsHasPart(s, "._tcp.");
    ContainsIsHasPart(s, "._udp.");
    if IsValidServiceType(s) {
      assert IsCut(s, "", "_", s[1..]);
      assert IsCut(s, s[..|s| - |".local."|], ".local.", "");
    }
  }

  /** One transport is enough, either one, whatever the name. */
  lemma OneTransportIsEnough(name: string)
    ensures IsValidServiceType("_" + name + "._tcp.local.")
    ensures IsValidServiceType("_" + name + "._udp.local.")
  {
    NamedTransport("_" + name, "._tcp.");
    NamedTransport("_" + name, "._udp.");
    assert "_" + name + "._tcp." + "local." == "_" + name + "._tcp.local.";
    assert "_" + name + "._udp." + "local." == "_" + name + "._udp.local.";
  }

  lemma DefaultServiceTypeIsValid()
    ensures IsValidServiceType(DEFAULT_SERVICE_TYPE)
  {
    OneTransportIsEnough("agent-mesh");
    assert DEFAULT_SERVICE_TYPE == "_" + "agent-mesh" + "._tcp.local.";
  }

  lemma NamedTransport(front: string, transport: string)
    requires "_" <= front && transport in {"._tcp.", "._udp."}
    ensures IsValidServiceType(front + transport + "local.")
  {
    var s := front + transport + "local.";
    assert IsCut(s, front, transport, "local.");
    assert HasPart(s, transport);
    assert IsCut(s, "", "_", s[1..]);
    assert transport == transport[..5] + ".";
    assert IsCut(s, front + transport[..5], ".local.", "");
    ServiceTypeIff(s);
  }

  function ReservedKeys(metadata: Metadata): set<string> {
    set k | k in metadata && IsReservedKey(k)
  }

  function Validate(c: ZeroConfConfig): Outcome<()> {
    if c.port == 0 then Err(InvalidPort)
    else if c.mdnsPort == 0 then Err(InvalidMdnsPort)
    else if c.ttl <= c.heartbeatInterval then Err(InvalidTiming(c.heartbeatInterval, c.ttl))
    else if c.eventCapacity == 0 then Err(InvalidEventCapacity)
    else if !IsValidServiceType(c.serviceType) then Err(InvalidServiceType(c.serviceType))
    else if HasBlankKey(c.metadata) then Err(EmptyMetadataKey)
    else if ReservedKeys(c.metadata) != {} then Err(ReservedMetadataKey(Least(ReservedKeys(c.metadata))))
    else Ok(())
  }

  /** Trims the text fields, then validates; starts out advertising and without a secret. */
  function NewConfig(c: ZeroConfConfig): Outcome<ZeroConfConfig> {
    var agentId :- NormalizeRequired(c.agentId, "agent_id");
    var role :- NormalizeRequired(c.role, "role");
    var project :- NormalizeRequired(c.project, "project");
    var branch :- NormalizeRequired(c.branch, "branch");
    var serviceType :- NormalizeRequired(c.serviceType, "service_type");
    var config := c.(agentId := agentId, role := role, project := project, branch := branch,
                     serviceType := serviceType, advertiseLocal := true, sharedSecretAuth := None);
    var _ :- Validate(config);
    Ok(config)
  }

  function WithAdvertiseLocal(c: ZeroConfConfig, advertise: bool): ZeroConfConfig {
    c.(advertiseLocal := advertise)
  }

  function WithSharedSecretAuth(c: ZeroConfConfig, auth: SharedSecretAuth): ZeroConfConfig {
    c.(sharedSecretAuth := Some(auth))
  }

  /** What every configuration built by the constructor and the two changes above satisfies. */
  predicate Valid(c: ZeroConfConfig) {
    && Clean(c.agentId) && Clean(c.role) && Clean(c.project) && Clean(c.branch) && Clean(c.serviceType)
    && Validate(c).Ok?
  }

  /** What the constructor accepts, in terms of the untrimmed input. */
  ghost predicate Acceptable(c: ZeroConfConfig) {
    && !Blank(c.agentId) && !Blank(c.role) && !Blank(c.project) && !Blank(c.branch) && !Blank(c.serviceType)
    && c.port != 0 && c.mdnsPort != 0
    && c.heartbeatInterval < c.ttl
    && c.eventCapacity > 0
    && IsServiceType(Trim(c.serviceType))
    && forall k :: k in c.metadata ==> !Blank(k) && !IsReservedKey(k)
  }

  lemma ValidateMeaning(c: ZeroConfConfig)
    requires !Blank(c.agentId) && !Blank(c.role) && !Blank(c.project) && !Blank(c.branch) && !Blank(c.serviceType)
    requires Trim(c.serviceType) == c.serviceType
    ensures Validate(c).Ok? <==> Acceptable(c)
  {
    ServiceTypeIff(c.serviceType);
    assert forall k :: k in c.metadata && IsReservedKey(k) ==> k in ReservedKeys(c.metadata);
  }

  /** The configuration the constructor builds: five trimmed fields, advertising, no secret. */
  function Initial(c: ZeroConfConfig): ZeroConfConfig {
    c.(agentId := Trim(c.agentId), role := Trim(c.role), project := Trim(c.project), branch := Trim(c.branch),
       serviceType := Trim(c.serviceType), advertiseLocal := true, sharedSecretAuth := None)
  }

  /** The constructor accepts exactly these configurations and trims their five text fields. */
  lemma NewConfigMeaning(c: ZeroConfConfig)
    ensures NewConfig(c).Ok? <==> Acceptable(c)
    ensures NewConfig(c).Ok? ==> NewConfig(c).value == Initial(c)
  {
    NormalizeRequiredClean(c.agentId, "agent_id");
    NormalizeRequiredClean(c.role, "role");
    NormalizeRequiredClean(c.project, "project");
    NormalizeRequiredClean(c.branch, "branch");
    NormalizeRequiredClean(c.serviceType, "service_type");
    if !Blank(c.agentId) && !Blank(c.role) && !Blank(c.project) && !Blank(c.branch) && !Blank(c.serviceType) {
      TrimAgain(c);
      ValidateMeaning(Initial(c));
    }
  }

  /** The first of the five text fields, in the order of the arguments, that is blank. */
  function FirstBlankField(c: ZeroConfConfig): Option<string> {
    if Blank(c.agentId) then Some("agent_id")
    else if Blank(c.role) then Some("role")
    else if Blank(c.project) then Some("project")
    else if Blank(c.branch) then Some("branch")
    else if Blank(c.serviceType) then Some("service_type")
    else None
  }

  /** Validation refuses, in this order, the agent's port, the daemon's port, the timing, the event capacity,
      the service type, a blank metadata key, and the least metadata key that is reserved. */
  lemma ValidateRefusal(c: ZeroConfConfig)
    requires Validate(c).Err?
    ensures var e := Validate(c).error;
            if c.port == 0 then e == InvalidPort
            else if c.mdnsPort == 0 then e == InvalidMdnsPort
            else if c.ttl <= c.heartbeatInterval then e == InvalidTiming(c.heartbeatInterval, c.ttl)
            else if c.eventCapacity == 0 then e == InvalidEventCapacity
            else if !IsServiceType(c.serviceType) then e == InvalidServiceType(c.serviceType)
            else if HasBlankKey(c.metadata) then e == EmptyMetadataKey
            else e.ReservedMetadataKey? && IsFirstReserved(c.metadata, e.key)
  {
    ServiceTypeIff(c.serviceType);
    if ReservedKeys(c.metadata) != {} {
      LeastReserved(c.metadata);
    }
  }

  /** The constructor refuses the first blank field, else what validation refuses. */
  lemma NewConfigRefusal(c: ZeroConfConfig)
    ensures NewConfig(c).Err? ==>
              NewConfig(c).error == if FirstBlankField(c).Some? then EmptyField(FirstBlankField(c).value)
                                    else Validate(Initial(c)).error
  {
  }

  predicate IsFirstReserved(metadata: Metadata, key: string) {
    && key in metadata && IsReservedKey(key)
    && forall k :: k in metadata && IsReservedKey(k) ==> k == key || Less(key, k)
  }

  lemma LeastReserved(metadata: Metadata)
    requires ReservedKeys(metadata) != {}
    ensures IsFirstReserved(metadata, Least(ReservedKeys(metadata)))
  {
    assert forall k :: k in metadata && IsReservedKey(k) ==> k in ReservedKeys(metadata);
  }

  lemma TrimAgain(c: ZeroConfConfig)
    requires !Blank(c.agentId) && !Blank(c.role) && !Blank(c.project) && !Blank(c.branch) && !Blank(c.serviceType)
    ensures var t := Initial(c);
            && !Blank(t.agentId) && !Blank(t.role) && !Blank(t.project) && !Blank(t.branch) && !Blank(t.serviceType)
            && Trim(t.serviceType) == t.serviceType
  {
    TrimOfTrimmed(Trim(c.agentId));
    TrimOfTrimmed(Trim(c.role));
    TrimOfTrimmed(Trim(c.project));
    TrimOfTrimmed(Trim(c.branch));
    TrimOfTrimmed(Trim(c.serviceType));
  }

  lemma NewConfigIsValid(c: ZeroConfConfig, advertise: bool, auth: SharedSecretAuth)
    requires NewConfig(c).Ok?
    ensures Valid(NewConfig(c).value)
    ensures Valid(WithAdvertiseLocal(NewConfig(c).value, advertise))
    ensures Valid(WithSharedSecretAuth(WithAdvertiseLocal(NewConfig(c).value, advertise), auth))
    ensures NewConfig(c).value.heartbeatInterval < NewConfig(c).value.ttl
  {
    NormalizeRequiredClean(c.agentId, "agent_id");
    NormalizeRequiredClean(c.role, "role");
    NormalizeRequiredClean(c.project, "project");
    NormalizeRequiredClean(c.branch, "branch");
    NormalizeRequiredClean(c.serviceType, "service_type");
  }

  function InstanceName(c: ZeroConfConfig): string {
    c.agentId + "." + c.serviceType
  }

  /** What is chosen about advertising and the secret is what the configuration says; nothing else changes. */
  lemma ChoicesAreKept(c: ZeroConfConfig, advertise: bool, auth: SharedSecretAuth)
    ensures var changed := WithSharedSecretAuth(WithAdvertiseLocal(Initial(c), advertise), auth);
            && changed.advertiseLocal == advertise && changed.sharedSecretAuth == Some(auth)
            && changed.(advertiseLocal := true, sharedSecretAuth := None) == Initial(c)
  {
  }

  /** Under one service type, two agents have one instance name exactly if they have one id. */
  lemma InstanceNamesDiffer(c: ZeroConfConfig, d: ZeroConfConfig)
    requires c.serviceType == d.serviceType
    ensures InstanceName(c) == InstanceName(d) <==> c.agentId == d.agentId
    ensures InstanceName(c) == c.agentId + "." + c.serviceType
  {
    if InstanceName(c) == InstanceName(d) {
      assert InstanceName(c)[..|c.agentId|] == c.agentId;
      assert InstanceName(d)[..|d.agentId|] == d.agentId;
    }
  }

  /** The local announcement before its metadata is filled in. */
  function Draft(c: ZeroConfConfig): Announcement {
    Announcement(InstanceName(c), c.agentId, c.role, c.project, c.branch, c.initialStatus, [], c.port, [], c.metadata)
  }

  function LocalAnnouncement(c: ZeroConfConfig): Outcome<Announcement> {
    New(InstanceName(c), c.agentId, c.role, c.project, c.branch, c.initialStatus, c.port, [],
        C.Sync(WithTypedFields(Draft(c)), c.capabilities))
  }

  lemma InstanceNameIsClean(c: ZeroConfConfig)
    requires Valid(c)
    ensures Clean(InstanceName(c))
  {
  }

  lemma DraftKeysVisible(c: ZeroConfConfig)
    requires Valid(c)
    ensures !HasBlankKey(C.Sync(WithTypedFields(Draft(c)), c.capabilities))
  {
    PrintedKeysVisible(Draft(c));
    SyncKeepsKeysVisible(WithTypedFields(Draft(c)), c.capabilities);
  }

  /** A valid configuration always yields its local announcement: well formed, canonical keys in
      step, no auth metadata, named `agent_id.service_type`. */
  lemma LocalAnnouncementMeaning(c: ZeroConfConfig)
    requires Valid(c)
    ensures LocalAnnouncement(c).Ok?
    ensures var a := LocalAnnouncement(c).value;
            && WellFormed(a) && Synced(a)
            && a.instanceName == InstanceName(c) && a.agentId == c.agentId
            && a.role == c.role && a.project == c.project && a.branch == c.branch
            && a.status == c.initialStatus && a.addresses == [] && a.port == c.port
            && OpenMetadata(a.metadata) == c.metadata
            && (C.Canonical(c.capabilities) ==> a.capabilities == c.capabilities)
            && (forall x :: x in a.capabilities <==> C.IsPart(c.capabilities, x))
  {
    InstanceNameIsClean(c);
    DraftKeysVisible(c);
    var m := C.Sync(WithTypedFields(Draft(c)), c.capabilities);
    C.FromMetadataTotal(m);
    var capabilities := C.FromMetadata(m).value;
    SyncKeepsKeysVisible(m, capabilities);
    C.SyncInStep(m, capabilities);
    LocalFields(c);
    TwiceSynced(Draft(c), c.capabilities, capabilities);
    ConfiguredMetadataStays(c, capabilities);
    if C.Canonical(c.capabilities) {
      C.WireRoundTrip(WithTypedFields(Draft(c)), c.capabilities);
    }
    forall x ensures x in capabilities <==> C.IsPart(c.capabilities, x) {
      C.WrittenPartsAreRead(WithTypedFields(Draft(c)), c.capabilities, x);
    }
  }

  lemma ConfiguredMetadataStays(c: ZeroConfConfig, capabilities: seq<string>)
    requires Valid(c)
    ensures OpenMetadata(C.Sync(C.Sync(WithTypedFields(Draft(c)), c.capabilities), capabilities)) == c.metadata
  {
    SyncKeepsOpen(C.Sync(WithTypedFields(Draft(c)), c.capabilities), capabilities);
    SyncKeepsOpen(WithTypedFields(Draft(c)), c.capabilities);
    TypedFieldsKeepOpen(Draft(c));
    forall k | k in c.metadata ensures !IsReservedKey(k) {
      assert k !in ReservedKeys(c.metadata);
    }
  }

  lemma LocalFields(c: ZeroConfConfig)
    requires Valid(c) && Clean(InstanceName(c))
    requires !HasBlankKey(C.Sync(WithTypedFields(Draft(c)), c.capabilities))
    ensures var m := C.Sync(WithTypedFields(Draft(c)), c.capabilities);
            C.FromMetadata(m).Ok? ==>
              var capabilities := C.FromMetadata(m).value;
              LocalAnnouncement(c) == Ok(Draft(c).(capabilities := capabilities, metadata := C.Sync(m, capabilities)))
  {
    NormalizeRequiredClean(InstanceName(c), "instance_name");
    NormalizeRequiredClean(c.agentId, "agent_id");
    NormalizeRequiredClean(c.role, "role");
    NormalizeRequiredClean(c.project, "project");
    NormalizeRequiredClean(c.branch, "branch");
  }

  lemma TwiceSynced(a: Announcement, x: seq<string>, y: seq<string>)
    ensures Synced(a.(capabilities := y, metadata := C.Sync(C.Sync(WithTypedFields(a), x), y)))
  {
    var m := WithTypedFields(a);
    TypedFieldsHold(a);
    CanonicalKeysDiffer();
    forall k | k in {AGENT_ID_KEY, ROLE_KEY, PROJECT_KEY, BRANCH_KEY, STATUS_KEY}
      ensures k in m && Holds(C.Sync(C.Sync(m, x), y), k, m[k])
    {
      SyncTouchesOneKey(m, x, k);
      SyncTouchesOneKey(C.Sync(m, x), y, k);
    }
  }

  // ---------- everything a node can announce ----------

  datatype LocalOp = Change(setter: Setter) | Resign(auth: SharedSecretAuth)

  function ApplyLocalOp(mac: Mac, a: Announcement, op: LocalOp): Announcement {
    match op
    case Change(setter) => Changed(a, setter)
    case Resign(auth) => ApplyAuth(mac, a, auth)
  }

  function RunLocal(mac: Mac, a: Announcement, ops: seq<LocalOp>): Announcement
    decreases |ops|
  {
    if ops == [] then a else RunLocal(mac, ApplyLocalOp(mac, a, ops[0]), ops[1..])
  }

  /** A well-formed announcement of the node a, with its canonical keys in step. */
  predicate LocalForm(a: Announcement, b: Announcement) {
    WellFormed(b) && Synced(b) && SameIdentity(a, b)
  }

  lemma LocalOpKeepsForm(mac: Mac, a: Announcement, op: LocalOp)
    requires WellFormed(a) && Synced(a)
    ensures LocalForm(a, ApplyLocalOp(mac, a, op))
  {
    match op
    case Change(setter) =>
      ChangeKeepsForm(a, setter);
      ChangeKeepsSync(a, setter);
    case Resign(auth) =>
      SigningKeepsForm(mac, a, auth);
      SigningKeepsSync(mac, a, auth);
  }

  lemma {:induction false} LocalRunKeepsForm(mac: Mac, a: Announcement, ops: seq<LocalOp>)
    requires WellFormed(a) && Synced(a)
    ensures LocalForm(a, RunLocal(mac, a, ops))
    decreases |ops|
  {
    if ops != [] {
      LocalOpKeepsForm(mac, a, ops[0]);
      LocalRunKeepsForm(mac, ApplyLocalOp(mac, a, ops[0]), ops[1..]);
    }
  }

  /** Whatever sequence of updates, rejected updates and re-signings a node goes through, what it
      announces is the fixpoint of print, carry and parse exactly when its keys are safe. */
  lemma ReachableIsFixpoint(mac: Mac, c: ZeroConfConfig, ops: seq<LocalOp>)
    requires Valid(c)
    ensures LocalAnnouncement(c).Ok?
    ensures var a := RunLocal(mac, LocalAnnouncement(c).value, ops);
            Parse(InstanceName(c), c.port, [], Carry(Print(a))) == Ok(a) <==> SafeKeys(a.metadata.Keys)
  {
    LocalAnnouncementMeaning(c);
    var first := LocalAnnouncement(c).value;
    LocalRunKeepsForm(mac, first, ops);
    SyncedIsFixpoint(RunLocal(mac, first, ops));
  }
}
