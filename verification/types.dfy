/** The data types shared by every part of the crate: errors, status and the announcement value. */
module Types {
  import opened Wrappers
  import opened Text

  datatype ZeroConfError =
    | EmptyField(field: string)
    | InvalidServiceType(serviceType: string)
    | InvalidPort
    | InvalidMdnsPort
    | InvalidEventCapacity
    | InvalidTiming(heartbeatInterval: nat, ttl: nat)
    | EmptyMetadataKey
    | ReservedMetadataKey(key: string)
    | EmptyCapability
    | EmptySharedSecret
    | InvalidCapability(value: string)
    | MissingTxtProperty(key: string)
    | InvalidTxtPropertyEncoding(key: string)
    | InvalidStatus(value: string)
    | MissingAuthMetadata(key: string)
    | InvalidAuthScheme(value: string)
    | InvalidSharedSecretSignature(agentId: string)
    | Mdns
    | TaskJoin

  type Outcome<+T> = Result<T, ZeroConfError>

  const AGENT_ID_KEY := "agent_id"
  const ROLE_KEY := "role"
  const PROJECT_KEY := "current_project"
  const BRANCH_KEY := "current_branch"
  const STATUS_KEY := "status"
  const CAPABILITIES_KEY := "capabilities"
  const AUTH_SCHEME_KEY := "zcm_auth"
  const SIGNATURE_KEY := "zcm_sig"

  type Metadata = map<string, string>

  predicate IsReservedKey(key: string) {
    key in {AGENT_ID_KEY, ROLE_KEY, PROJECT_KEY, BRANCH_KEY, STATUS_KEY, CAPABILITIES_KEY,
            AUTH_SCHEME_KEY, SIGNATURE_KEY}
  }

  type Port = n: nat | n < 0x1_0000

  datatype IpAddr = V4(bits: nat) | V6(bits: nat)

  datatype AgentStatus = Idle | Busy | Error

  function StatusText(status: AgentStatus): string {
    match status
    case Idle => "idle"
    case Busy => "busy"
    case Error => "error"
  }

  function ParseStatus(value: string): Outcome<AgentStatus> {
    var normalized := Lower(Trim(value));
    if normalized == "idle" then Ok(Idle)
    else if normalized == "busy" then Ok(Busy)
    else if normalized == "error" then Ok(Error)
    else Err(InvalidStatus(normalized))
  }

  lemma NormalizedText(t: string)
    requires Trimmed(t)
    requires forall i :: 0 <= i < |t| ==> !('A' <= t[i] <= 'Z')
    ensures Lower(Trim(t)) == t
  {
  }

  /** The wire form of a status reads back as that status. */
  lemma StatusRoundTrip(status: AgentStatus)
    ensures ParseStatus(StatusText(status)) == Ok(status)
    ensures Clean(StatusText(status))
    ensures '\n' !in StatusText(status)
  {
    NormalizedText(StatusText(status));
  }

  /** A text is read as a status exactly if it is that status but for case and white space around it; the
      error holds the text so normalized. */
  lemma ParseStatusIff(value: string, status: AgentStatus)
    ensures ParseStatus(value) == Ok(status) <==> Lower(Trim(value)) == StatusText(status)
    ensures ParseStatus(value).Err? ==> ParseStatus(value) == Err(InvalidStatus(Lower(Trim(value))))
  {
  }

  lemma PaddedText(v: string, t: string, w: string)
    requires AllSpace(v) && AllSpace(w) && Trimmed(t)
    requires forall i :: 0 <= i < |t| ==> !('A' <= t[i] <= 'Z')
    ensures Lower(Trim(v + t + w)) == t
  {
    TrimOfPadded(v, t, w);
  }

  /** The three texts, with any white space around them. */
  lemma PaddedStatusTexts(v: string, w: string)
    requires AllSpace(v) && AllSpace(w)
    ensures ParseStatus(v + "idle" + w) == Ok(Idle)
    ensures ParseStatus(v + "busy" + w) == Ok(Busy)
    ensures ParseStatus(v + "error" + w) == Ok(Error)
  {
    PaddedText(v, "idle", w);
    PaddedText(v, "busy", w);
    PaddedText(v, "error", w);
  }

  /** An announcement as a value: what is printed on the wire, parsed from it, and stored. */
  datatype Announcement = Announcement(
    instanceName: string,
    agentId: string,
    role: string,
    project: string,
    branch: string,
    status: AgentStatus,
    capabilities: seq<string>,
    port: Port,
    addresses: seq<IpAddr>,
    metadata: Metadata)

  function NormalizeRequired(value: string, field: string): Outcome<string> {
    var trimmed := Trim(value);
    if trimmed == [] then Err(EmptyField(field)) else Ok(trimmed)
  }

  /** A clean value is accepted unchanged; any accepted value is clean. */
  lemma NormalizeRequiredClean(value: string, field: string)
    ensures NormalizeRequired(value, field).Ok? <==> !Blank(value)
    ensures NormalizeRequired(value, field).Ok? ==> Clean(NormalizeRequired(value, field).value)
    ensures Clean(value) ==> NormalizeRequired(value, field) == Ok(value)
  {
  }
}
