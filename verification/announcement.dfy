/** Building an announcement and changing it, as functions on values. The class
    `AgentAnnouncement` changes its fields in place and is proved against them. */
module Announcements {
  import opened Wrappers
  import opened Text
  import opened Ordering
  import opened Types
  import C = Capabilities

  predicate HasBlankKey(metadata: Metadata) {
    exists k :: k in metadata && Blank(k)
  }

  /** Required fields are trimmed and must not be blank, the port must not be zero, metadata keys
      must not be blank; the capability list is read from the metadata and written back. */
  function New(instanceName: string, agentId: string, role: string, project: string, branch: string,
               status: AgentStatus, port: Port, addresses: seq<IpAddr>, metadata: Metadata): Outcome<Announcement>
  {
    var instanceName :- NormalizeRequired(instanceName, "instance_name");
    var agentId :- NormalizeRequired(agentId, "agent_id");
    var role :- NormalizeRequired(role, "role");
    var project :- NormalizeRequired(project, "project");
    var branch :- NormalizeRequired(branch, "branch");
    if port == 0 then Err(InvalidPort)
    else if HasBlankKey(metadata) then Err(EmptyMetadataKey)
    else
      var capabilities :- C.FromMetadata(metadata);
      Ok(Announcement(instanceName, agentId, role, project, branch, status, capabilities, port, addresses,
                      C.Sync(metadata, capabilities)))
  }

  predicate CleanFields(a: Announcement) {
    Clean(a.instanceName) && Clean(a.agentId) && Clean(a.role) && Clean(a.project) && Clean(a.branch)
  }

  /** Every announcement the constructor accepts has this form. */
  predicate WellFormed(a: Announcement) {
    && CleanFields(a)
    && a.port != 0
    && C.Canonical(a.capabilities)
    && !HasBlankKey(a.metadata)
    && C.InStep(a.metadata, a.capabilities)
  }

  predicate AcceptedBy(instanceName: string, agentId: string, role: string, project: string, branch: string,
                       port: Port, metadata: Metadata)
  {
    && !Blank(instanceName) && !Blank(agentId) && !Blank(role) && !Blank(project) && !Blank(branch)
    && port != 0
    && !HasBlankKey(metadata)
  }

  lemma NewAccepts(instanceName: string, agentId: string, role: string, project: string, branch: string,
                   status: AgentStatus, port: Port, addresses: seq<IpAddr>, metadata: Metadata)
    ensures New(instanceName, agentId, role, project, branch, status, port, addresses, metadata).Ok?
            <==> AcceptedBy(instanceName, agentId, role, project, branch, port, metadata)
  {
    C.FromMetadataTotal(metadata);
  }

  lemma SyncedCapabilitiesHaveForm(metadata: Metadata)
    requires !HasBlankKey(metadata)
    ensures var r := C.FromMetadata(metadata);
            && r.Ok? && C.Canonical(r.value)
            && !HasBlankKey(C.Sync(metadata, r.value)) && C.InStep(C.Sync(metadata, r.value), r.value)
  {
    C.FromMetadataTotal(metadata);
    var capabilities := C.FromMetadata(metadata).value;
    C.SyncInStep(metadata, capabilities);
    SyncKeepsKeysVisible(metadata, capabilities);
  }

  /** The constructor accepts exactly non-blank fields, keys and port; the value is well formed. */
  lemma NewMeaning(instanceName: string, agentId: string, role: string, project: string, branch: string,
                   status: AgentStatus, port: Port, addresses: seq<IpAddr>, metadata: Metadata)
    ensures var r := New(instanceName, agentId, role, project, branch, status, port, addresses, metadata);
            && (r.Ok? <==> AcceptedBy(instanceName, agentId, role, project, branch, port, metadata))
            && (r.Ok? ==> WellFormed(r.value))
  {
    NewAccepts(instanceName, agentId, role, project, branch, status, port, addresses, metadata);
    if AcceptedBy(instanceName, agentId, role, project, branch, port, metadata) {
      SyncedCapabilitiesHaveForm(metadata);
    }
  }

  /** What the constructor makes of its arguments. */
  predicate MadeFrom(a: Announcement, instanceName: string, agentId: string, role: string, project: string,
                     branch: string, status: AgentStatus, port: Port, addresses: seq<IpAddr>, metadata: Metadata)
  {
    && a.instanceName == Trim(instanceName) && a.agentId == Trim(agentId)
    && a.role == Trim(role) && a.project == Trim(project) && a.branch == Trim(branch)
    && a.status == status && a.port == port && a.addresses == addresses
    && C.FromMetadata(metadata) == Ok(a.capabilities)
    && SameButCapabilities(a.metadata, metadata)
  }

  predicate SameButCapabilities(m: Metadata, n: Metadata) {
    m - {CAPABILITIES_KEY} == n - {CAPABILITIES_KEY}
  }

  lemma SyncChangesCapabilitiesOnly(metadata: Metadata, capabilities: seq<string>)
    ensures SameButCapabilities(C.Sync(metadata, capabilities), metadata)
  {
  }

  /** The text fields come out trimmed, everything else as it went in but for the capabilities, which
      are read from the metadata and written back. */
  lemma NewFields(instanceName: string, agentId: string, role: string, project: string, branch: string,
                  status: AgentStatus, port: Port, addresses: seq<IpAddr>, metadata: Metadata)
    ensures var r := New(instanceName, agentId, role, project, branch, status, port, addresses, metadata);
            r.Ok? ==> MadeFrom(r.value, instanceName, agentId, role, project, branch, status, port, addresses, metadata)
  {
    C.FromMetadataTotal(metadata);
    SyncChangesCapabilitiesOnly(metadata, C.FromMetadata(metadata).value);
  }

  /** The first of the five required fields, in the order of the arguments, that is blank. */
  function FirstBlank(instanceName: string, agentId: string, role: string, project: string,
                      branch: string): Option<string> {
    if Blank(instanceName) then Some("instance_name")
    else if Blank(agentId) then Some("agent_id")
    else if Blank(role) then Some("role")
    else if Blank(project) then Some("project")
    else if Blank(branch) then Some("branch")
    else None
  }

  /** A refusal names the first blank field, else the port, else the metadata keys. */
  lemma NewRefusal(instanceName: string, agentId: string, role: string, project: string, branch: string,
                   status: AgentStatus, port: Port, addresses: seq<IpAddr>, metadata: Metadata)
    ensures var r := New(instanceName, agentId, role, project, branch, status, port, addresses, metadata);
            var blank := FirstBlank(instanceName, agentId, role, project, branch);
            r.Err? ==> r.error == (if blank.Some? then EmptyField(blank.value)
                                   else if port == 0 then InvalidPort
                                   else EmptyMetadataKey)
  {
    C.FromMetadataTotal(metadata);
  }

  lemma InsertKeepsKeysVisible(metadata: Metadata, key: string, value: string)
    requires !HasBlankKey(metadata) && Clean(key)
    ensures !HasBlankKey(metadata[key := value])
  {
  }

  lemma SyncKeepsKeysVisible(metadata: Metadata, capabilities: seq<string>)
    requires !HasBlankKey(metadata)
    ensures !HasBlankKey(C.Sync(metadata, capabilities))
  {
  }

  // ---------- changes ----------

  datatype Setter =
    | SetStatus(status: AgentStatus)
    | ChangeCapabilities(op: C.CapabilityOp)
    | SetProject(project: string)
    | SetBranch(branch: string)
    | SetMetadata(key: string, value: string)
    | RemoveMetadata(key: string)

  function NormalizeMetadataKey(key: string): Outcome<string> {
    var trimmed := Trim(key);
    if trimmed == [] then Err(EmptyMetadataKey) else Ok(trimmed)
  }

  /** `add_capability` writes the metadata key only when the list changes. */
  function WithCapabilities(a: Announcement, op: C.CapabilityOp, capabilities: seq<string>): Announcement {
    if op.Add? && capabilities == a.capabilities then a
    else a.(capabilities := capabilities, metadata := C.Sync(a.metadata, capabilities))
  }

  function ApplySetter(a: Announcement, s: Setter): Outcome<Announcement> {
    match s
    case SetStatus(status) =>
      Ok(a.(status := status, metadata := a.metadata[STATUS_KEY := StatusText(status)]))
    case ChangeCapabilities(op) =>
      var capabilities :- C.ApplyOp(a.capabilities, op);
      Ok(WithCapabilities(a, op, capabilities))
    case SetProject(project) =>
      var project :- NormalizeRequired(project, "project");
      Ok(a.(project := project, metadata := a.metadata[PROJECT_KEY := project]))
    case SetBranch(branch) =>
      var branch :- NormalizeRequired(branch, "branch");
      Ok(a.(branch := branch, metadata := a.metadata[BRANCH_KEY := branch]))
    case SetMetadata(key, value) =>
      var key :- NormalizeMetadataKey(key);
      if IsReservedKey(key) then Err(ReservedMetadataKey(key))
      else Ok(a.(metadata := a.metadata[key := value]))
    case RemoveMetadata(key) =>
      var key :- NormalizeMetadataKey(key);
      if IsReservedKey(key) then Err(ReservedMetadataKey(key))
      else Ok(a.(metadata := a.metadata - {key}))
  }

  /** A rejected change leaves the announcement as it was. */
  function Changed(a: Announcement, s: Setter): Announcement {
    match ApplySetter(a, s)
    case Ok(b) => b
    case Err(_) => a
  }

  predicate Holds(metadata: Metadata, key: string, value: string) {
    key in metadata && metadata[key] == value
  }

  /** The canonical metadata keys say what the typed fields say. */
  predicate Synced(a: Announcement) {
    && Holds(a.metadata, AGENT_ID_KEY, a.agentId)
    && Holds(a.metadata, ROLE_KEY, a.role)
    && Holds(a.metadata, PROJECT_KEY, a.project)
    && Holds(a.metadata, BRANCH_KEY, a.branch)
    && Holds(a.metadata, STATUS_KEY, StatusText(a.status))
  }

  predicate SameIdentity(a: Announcement, b: Announcement) {
    && a.instanceName == b.instanceName
    && a.agentId == b.agentId
    && a.role == b.role
    && a.port == b.port
    && a.addresses == b.addresses
  }

  /** The auth metadata of b is that of a. */
  predicate SameAuthMetadata(a: Metadata, b: Metadata) {
    && (AUTH_SCHEME_KEY in a <==> AUTH_SCHEME_KEY in b)
    && (SIGNATURE_KEY in a <==> SIGNATURE_KEY in b)
    && (AUTH_SCHEME_KEY in a ==> a[AUTH_SCHEME_KEY] == b[AUTH_SCHEME_KEY])
    && (SIGNATURE_KEY in a ==> a[SIGNATURE_KEY] == b[SIGNATURE_KEY])
  }

  lemma ChangedCapabilitiesKeepForm(a: Announcement, op: C.CapabilityOp)
    requires WellFormed(a)
    ensures WellFormed(Changed(a, ChangeCapabilities(op)))
  {
    C.OpActsOnSet(a.capabilities, op);
    if C.ApplyOp(a.capabilities, op).Ok? {
      var capabilities := C.ApplyOp(a.capabilities, op).value;
      SyncKeepsKeysVisible(a.metadata, capabilities);
      C.SyncInStep(a.metadata, capabilities);
    }
  }

  lemma ChangedFieldKeepsForm(a: Announcement, s: Setter)
    requires WellFormed(a) && (s.SetStatus? || s.SetProject? || s.SetBranch?)
    ensures WellFormed(Changed(a, s))
  {
    match s
    case SetStatus(status) => InsertKeepsKeysVisible(a.metadata, STATUS_KEY, StatusText(status));
    case SetProject(project) => InsertKeepsKeysVisible(a.metadata, PROJECT_KEY, Trim(project));
    case SetBranch(branch) => InsertKeepsKeysVisible(a.metadata, BRANCH_KEY, Trim(branch));
  }

  lemma ChangedMetadataKeepsForm(a: Announcement, s: Setter)
    requires WellFormed(a) && (s.SetMetadata? || s.RemoveMetadata?)
    ensures WellFormed(Changed(a, s))
  {
  }

  lemma ChangeKeepsIdentity(a: Announcement, s: Setter)
    ensures SameIdentity(a, Changed(a, s))
  {
  }

  /** Every change keeps an announcement well formed and cannot touch who it is. */
  lemma ChangeKeepsForm(a: Announcement, s: Setter)
    requires WellFormed(a)
    ensures WellFormed(Changed(a, s)) && SameIdentity(a, Changed(a, s))
  {
    ChangeKeepsIdentity(a, s);
    match s
    case ChangeCapabilities(op) => ChangedCapabilitiesKeepForm(a, op);
    case SetStatus(_) => ChangedFieldKeepsForm(a, s);
    case SetProject(_) => ChangedFieldKeepsForm(a, s);
    case SetBranch(_) => ChangedFieldKeepsForm(a, s);
    case SetMetadata(_, _) => ChangedMetadataKeepsForm(a, s);
    case RemoveMetadata(_) => ChangedMetadataKeepsForm(a, s);
  }

  /** Every change keeps the canonical metadata keys equal to the typed fields. */
  lemma ChangeKeepsSync(a: Announcement, s: Setter)
    requires Synced(a)
    ensures Synced(Changed(a, s))
  {
  }

  /** No change can touch the auth metadata. */
  lemma ChangeKeepsAuth(a: Announcement, s: Setter)
    ensures SameAuthMetadata(a.metadata, Changed(a, s).metadata)
  {
  }

  // ---------- what each change does ----------

  /** One entry is written, the others stay. */
  predicate KeyWritten(m: Metadata, n: Metadata, key: string, value: string) {
    Holds(n, key, value) && n - {key} == m - {key}
  }

  /** A new status goes to the field and its key, and nowhere else. */
  lemma SetStatusMeaning(a: Announcement, status: AgentStatus)
    ensures var r := ApplySetter(a, SetStatus(status));
            && r.Ok?
            && r.value == a.(status := status, metadata := r.value.metadata)
            && KeyWritten(a.metadata, r.value.metadata, STATUS_KEY, StatusText(status))
  {
  }

  /** A project is refused exactly if it is blank; otherwise it goes, trimmed, to the field and its key, and
      nowhere else. */
  lemma SetProjectMeaning(a: Announcement, project: string)
    ensures var r := ApplySetter(a, SetProject(project));
            if Blank(project) then r == Err(EmptyField("project"))
            else
              && r.Ok?
              && r.value == a.(project := Trim(project), metadata := r.value.metadata)
              && KeyWritten(a.metadata, r.value.metadata, PROJECT_KEY, Trim(project))
  {
  }

  /** The same for the branch. */
  lemma SetBranchMeaning(a: Announcement, branch: string)
    ensures var r := ApplySetter(a, SetBranch(branch));
            if Blank(branch) then r == Err(EmptyField("branch"))
            else
              && r.Ok?
              && r.value == a.(branch := Trim(branch), metadata := r.value.metadata)
              && KeyWritten(a.metadata, r.value.metadata, BRANCH_KEY, Trim(branch))
  {
  }

  /** A change of metadata is refused exactly if its key is blank or, trimmed, reserved. Otherwise, after a
      write the trimmed key holds the value, after a removal it is gone; nothing else changes. */
  lemma MetadataChangeMeaning(a: Announcement, key: string, value: string)
    ensures var written, removed := ApplySetter(a, SetMetadata(key, value)), ApplySetter(a, RemoveMetadata(key));
            if Blank(key) then written == removed == Err(EmptyMetadataKey)
            else if IsReservedKey(Trim(key)) then written == removed == Err(ReservedMetadataKey(Trim(key)))
            else
              && written.Ok? && written.value == a.(metadata := written.value.metadata)
              && KeyWritten(a.metadata, written.value.metadata, Trim(key), value)
              && removed.Ok? && removed.value == a.(metadata := removed.value.metadata)
              && Trim(key) !in removed.value.metadata
              && removed.value.metadata - {Trim(key)} == a.metadata - {Trim(key)}
  {
  }

  /** A change of capabilities acts on the list as on a set, brings the key in step, and touches nothing
      else; it is refused exactly if a name is, with the error of the first such name. */
  lemma CapabilityChangeMeaning(a: Announcement, op: C.CapabilityOp)
    requires WellFormed(a)
    ensures var r := ApplySetter(a, ChangeCapabilities(op));
            && (r.Ok? <==> C.AcceptableOp(op))
            && (r.Ok? ==>
                  && r.value == a.(capabilities := r.value.capabilities, metadata := r.value.metadata)
                  && Elems(r.value.capabilities) == C.ApplyToSet(Elems(a.capabilities), op)
                  && C.InStep(r.value.metadata, r.value.capabilities)
                  && SameButCapabilities(r.value.metadata, a.metadata))
            && (r.Err? && !op.Replace? ==> r == Err(C.Refusal(op.name)))
            && (op.Replace? ==> forall k :: IsFirstRefused(op.names, k) ==> r == Err(C.Refusal(op.names[k])))
  {
    C.OpActsOnSet(a.capabilities, op);
    if C.ApplyOp(a.capabilities, op).Ok? {
      var capabilities := C.ApplyOp(a.capabilities, op).value;
      C.SyncInStep(a.metadata, capabilities);
      SyncChangesCapabilitiesOnly(a.metadata, capabilities);
    }
    if op.Replace? {
      forall k | IsFirstRefused(op.names, k)
        ensures ApplySetter(a, ChangeCapabilities(op)) == Err(C.Refusal(op.names[k]))
      {
        C.FirstRefusal(op.names, k);
      }
    }
  }

  predicate IsFirstRefused(names: seq<string>, k: int) {
    0 <= k < |names| && !C.Acceptable(names[k]) && forall i :: 0 <= i < k ==> C.Acceptable(names[i])
  }
}
