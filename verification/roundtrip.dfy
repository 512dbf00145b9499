/** Print, carry, parse: what arrives is what was announced, and it still verifies. */
module RoundTrips {
  import opened Wrappers
  import opened Text
  import opened Ordering
  import opened Types
  import opened Announcements
  import opened Signing
  import opened Txt
  import C = Capabilities

  // ---------- the printed metadata ----------

  lemma SyncTouchesOneKey(metadata: Metadata, capabilities: seq<string>, key: string)
    requires key != CAPABILITIES_KEY
    ensures key in C.Sync(metadata, capabilities) <==> key in metadata
    ensures key in metadata ==> C.Sync(metadata, capabilities)[key] == metadata[key]
  {
  }

  lemma TypedFieldsHold(a: Announcement)
    ensures var m := WithTypedFields(a);
            && Holds(m, AGENT_ID_KEY, a.agentId) && Holds(m, ROLE_KEY, a.role)
            && Holds(m, PROJECT_KEY, a.project) && Holds(m, BRANCH_KEY, a.branch)
            && Holds(m, STATUS_KEY, StatusText(a.status))
  {
  }

  lemma CanonicalKeysDiffer()
    ensures CAPABILITIES_KEY !in {AGENT_ID_KEY, ROLE_KEY, PROJECT_KEY, BRANCH_KEY, STATUS_KEY}
  {
  }

  lemma PrintedIsSynced(a: Announcement)
    ensures Synced(a.(metadata := PrintedMetadata(a)))
  {
  }

  lemma PrintedKeysVisible(a: Announcement)
    requires !HasBlankKey(a.metadata)
    ensures !HasBlankKey(WithTypedFields(a))
    ensures !HasBlankKey(PrintedMetadata(a))
  {
    var m := a.metadata;
    InsertKeepsKeysVisible(m, AGENT_ID_KEY, a.agentId);
    var m1 := m[AGENT_ID_KEY := a.agentId];
    InsertKeepsKeysVisible(m1, ROLE_KEY, a.role);
    var m2 := m1[ROLE_KEY := a.role];
    InsertKeepsKeysVisible(m2, PROJECT_KEY, a.project);
    var m3 := m2[PROJECT_KEY := a.project];
    InsertKeepsKeysVisible(m3, BRANCH_KEY, a.branch);
    var m4 := m3[BRANCH_KEY := a.branch];
    InsertKeepsKeysVisible(m4, STATUS_KEY, StatusText(a.status));
    SyncKeepsKeysVisible(WithTypedFields(a), a.capabilities);
  }

  lemma InsertHeld(metadata: Metadata, key: string, value: string)
    requires Holds(metadata, key, value)
    ensures metadata[key := value] == metadata
  {
  }

  /** An announcement whose canonical keys are in step prints the metadata it has. */
  lemma SyncedPrintsItsMetadata(a: Announcement)
    requires WellFormed(a) && Synced(a)
    ensures PrintedMetadata(a) == a.metadata
  {
    InsertHeld(a.metadata, AGENT_ID_KEY, a.agentId);
    InsertHeld(a.metadata, ROLE_KEY, a.role);
    InsertHeld(a.metadata, PROJECT_KEY, a.project);
    InsertHeld(a.metadata, BRANCH_KEY, a.branch);
    InsertHeld(a.metadata, STATUS_KEY, StatusText(a.status));
    C.SyncInStep(a.metadata, a.capabilities);
  }

  lemma TypedFieldsKeepOpen(a: Announcement)
    ensures OpenMetadata(WithTypedFields(a)) == OpenMetadata(a.metadata)
  {
  }

  lemma PrintedKeepsOpen(a: Announcement)
    ensures OpenMetadata(PrintedMetadata(a)) == OpenMetadata(a.metadata)
  {
  }

  lemma SyncKeepsOpen(metadata: Metadata, capabilities: seq<string>)
    ensures OpenMetadata(C.Sync(metadata, capabilities)) == OpenMetadata(metadata)
  {
  }

  lemma PrintedKeepsAuth(a: Announcement)
    ensures SameAuthMetadata(a.metadata, PrintedMetadata(a))
  {
  }

  // ---------- parsing what was printed ----------

  lemma RequiredOfHeld(metadata: Metadata, key: string, value: string)
    requires Holds(metadata, key, value) && Clean(value)
    ensures Required(metadata, key) == Ok(value)
  {
  }

  lemma NewOfClean(a: Announcement, addresses: seq<IpAddr>, metadata: Metadata)
    requires CleanFields(a) && a.port != 0 && !HasBlankKey(metadata)
    requires C.FromMetadata(metadata) == Ok(a.capabilities) && C.Sync(metadata, a.capabilities) == metadata
    ensures New(a.instanceName, a.agentId, a.role, a.project, a.branch, a.status, a.port, addresses, metadata)
            == Ok(a.(addresses := addresses, metadata := metadata))
  {
  }

  lemma ParseOfSynced(a: Announcement, addresses: seq<IpAddr>)
    requires CleanFields(a) && Synced(a)
    ensures FromMetadata(a.instanceName, a.port, addresses, a.metadata)
            == New(a.instanceName, a.agentId, a.role, a.project, a.branch, a.status, a.port, addresses, a.metadata)
  {
    var m := a.metadata;
    RequiredOfHeld(m, AGENT_ID_KEY, a.agentId);
    RequiredOfHeld(m, ROLE_KEY, a.role);
    RequiredOfHeld(m, PROJECT_KEY, a.project);
    RequiredOfHeld(m, BRANCH_KEY, a.branch);
    StatusRoundTrip(a.status);
    RequiredOfHeld(m, STATUS_KEY, StatusText(a.status));
  }

  /** What a peer holds after it has parsed a's record: a itself, with the addresses the peer saw
      and the metadata as printed. */
  function Arrived(a: Announcement, addresses: seq<IpAddr>): Announcement {
    a.(addresses := addresses, metadata := PrintedMetadata(a))
  }

  lemma ParseOfPrinted(a: Announcement, addresses: seq<IpAddr>)
    requires WellFormed(a)
    ensures FromMetadata(a.instanceName, a.port, addresses, PrintedMetadata(a)) == Ok(Arrived(a, addresses))
  {
    var m := PrintedMetadata(a);
    PrintedIsSynced(a);
    ParseOfSynced(a.(metadata := m), addresses);
    PrintedKeysVisible(a);
    C.WireRoundTrip(WithTypedFields(a), a.capabilities);
    C.SyncInStep(WithTypedFields(a), a.capabilities);
    C.SyncInStep(m, a.capabilities);
    NewOfClean(a, addresses, m);
  }

  /** Whatever arrives, what parses is well formed. */
  lemma ParsedIsWellFormed(instanceName: string, port: Port, addresses: seq<IpAddr>, properties: seq<Property>)
    ensures var r := Parse(instanceName, port, addresses, properties);
            r.Ok? ==> WellFormed(r.value)
  {
    var collected := Collect(properties, map[]);
    if Parse(instanceName, port, addresses, properties).Ok? {
      var m := collected.value;
      NewMeaning(instanceName, m[AGENT_ID_KEY], m[ROLE_KEY], m[PROJECT_KEY], m[BRANCH_KEY],
                 ParseStatus(m[STATUS_KEY]).value, port, addresses, m);
    }
  }

  /** A parsed announcement has no metadata key that did not arrive. */
  lemma ParsedKeys(instanceName: string, port: Port, addresses: seq<IpAddr>, metadata: Metadata)
    ensures var r := FromMetadata(instanceName, port, addresses, metadata);
            r.Ok? ==> r.value.metadata.Keys <= metadata.Keys
  {
    if FromMetadata(instanceName, port, addresses, metadata).Ok? {
      NewKeys(instanceName, metadata[AGENT_ID_KEY], metadata[ROLE_KEY], metadata[PROJECT_KEY], metadata[BRANCH_KEY],
              ParseStatus(metadata[STATUS_KEY]).value, port, addresses, metadata);
    }
  }

  lemma NewKeys(instanceName: string, agentId: string, role: string, project: string, branch: string,
                status: AgentStatus, port: Port, addresses: seq<IpAddr>, metadata: Metadata)
    ensures var r := New(instanceName, agentId, role, project, branch, status, port, addresses, metadata);
            r.Ok? ==> r.value.metadata.Keys <= metadata.Keys
  {
    if CAPABILITIES_KEY !in metadata {
      assert C.FromMetadata(metadata) == Ok([]);
    }
  }

  /** An announcement arrives at a peer as it was printed exactly when its metadata keys are safe
      on the wire. */
  lemma ArrivesIffSafe(a: Announcement, addresses: seq<IpAddr>)
    requires WellFormed(a)
    ensures Parse(a.instanceName, a.port, addresses, Carry(Print(a))) == Ok(Arrived(a, addresses))
            <==> SafeKeys(PrintedMetadata(a).Keys)
  {
    var m := PrintedMetadata(a);
    WireKeepsSafeMetadata(m);
    var collected := Collect(Carry(PrintMetadata(m)), map[]);
    if SafeKeys(m.Keys) {
      ParseOfPrinted(a, addresses);
    } else if collected.Ok? {
      CarriedKeysSafe(EncodeAll(PrintMetadata(m)));
      ParsedKeys(a.instanceName, a.port, addresses, collected.value);
    }
  }

  /** An announcement whose canonical keys are in step is a fixpoint of print, carry and parse
      exactly when its metadata keys are safe on the wire. */
  lemma SyncedIsFixpoint(a: Announcement)
    requires WellFormed(a) && Synced(a)
    ensures Parse(a.instanceName, a.port, a.addresses, Carry(Print(a))) == Ok(a) <==> SafeKeys(a.metadata.Keys)
  {
    SyncedPrintsItsMetadata(a);
    ArrivesIffSafe(a, a.addresses);
    assert Arrived(a, a.addresses) == a;
  }

  /** The crate accepts keys that do not survive the wire: a metadata key with an equals sign is taken,
      and what is announced afterwards is no fixpoint any more. */
  lemma EqualsKeyIsAcceptedAndLost(a: Announcement, key: string, value: string)
    requires WellFormed(a) && Synced(a) && '=' in Trim(key)
    ensures var r := ApplySetter(a, SetMetadata(key, value));
            && r.Ok? && WellFormed(r.value) && Synced(r.value)
            && r.value.instanceName == a.instanceName && r.value.port == a.port && r.value.addresses == a.addresses
            && Parse(a.instanceName, a.port, a.addresses, Carry(Print(r.value))) != Ok(r.value)
  {
    EqualsKeyIsAccepted(a, key, value);
    ChangeKeepsForm(a, SetMetadata(key, value));
    ChangeKeepsSync(a, SetMetadata(key, value));
    UnsafeKeyIsLost(ApplySetter(a, SetMetadata(key, value)).value, Trim(key));
  }

  lemma EqualsKeyIsAccepted(a: Announcement, key: string, value: string)
    requires '=' in Trim(key)
    ensures ApplySetter(a, SetMetadata(key, value)) == Ok(a.(metadata := a.metadata[Trim(key) := value]))
    ensures Changed(a, SetMetadata(key, value)) == ApplySetter(a, SetMetadata(key, value)).value
  {
    ReservedKeysHaveNoEquals(Trim(key));
  }

  lemma UnsafeKeyIsLost(b: Announcement, key: string)
    requires WellFormed(b) && Synced(b) && key in b.metadata && '=' in key
    ensures Parse(b.instanceName, b.port, b.addresses, Carry(Print(b))) != Ok(b)
  {
    SyncedIsFixpoint(b);
    assert key in b.metadata.Keys;
  }

  lemma ReservedKeysHaveNoEquals(key: string)
    requires '=' in key
    ensures !IsReservedKey(key)
  {
  }

  // ---------- signed announcements ----------

  /** Sign, print, carry, parse, verify: with keys that are safe on the wire, the peer gets the
      signed content whatever addresses it sees, and verification succeeds at every node that
      accepts the signing secret. */
  lemma SignedArrivesAndVerifies(mac: Mac, a: Announcement, auth: SharedSecretAuth, addresses: seq<IpAddr>,
                                 peer: SharedSecretAuth)
    requires WellFormed(a)
    requires SafeKeys(PrintedMetadata(ApplyAuth(mac, a, auth)).Keys)
    requires auth.signingSecret in peer.verificationSecrets
    ensures var signed := ApplyAuth(mac, a, auth);
            var r := Parse(signed.instanceName, signed.port, addresses, Carry(Print(signed)));
            r.Ok? && Content(r.value) == Content(a) && Verify(mac, r.value, peer).Ok?
  {
    var signed := ApplyAuth(mac, a, auth);
    SigningKeepsForm(mac, a, auth);
    ArrivesIffSafe(signed, addresses);
    SigningKeepsContent(mac, a, auth);
    PrintedKeepsOpen(signed);
    PrintedKeepsAuth(signed);
    var b := Arrived(signed, addresses);
    assert Content(b) == Content(a);
    SignedContentVerifies(mac, a, auth, b, peer);
  }

  /** The same for settings built by `with_rotation`: it is enough that one of the accepted secrets
      is, after trimming, the secret the sender signs with. */
  lemma RotatedPeerVerifies(mac: Mac, a: Announcement, auth: SharedSecretAuth, addresses: seq<IpAddr>,
                            signing: string, accepted: seq<string>, mode: SharedSecretMode, k: nat)
    requires WellFormed(a) && SafeKeys(PrintedMetadata(ApplyAuth(mac, a, auth)).Keys)
    requires WithRotation(signing, accepted, mode).Ok?
    requires k < |accepted| && Trim(accepted[k]) == auth.signingSecret
    ensures var signed := ApplyAuth(mac, a, auth);
            var r := Parse(signed.instanceName, signed.port, addresses, Carry(Print(signed)));
            r.Ok? && Verify(mac, r.value, WithRotation(signing, accepted, mode).value).Ok?
  {
    WithRotationMeaning(signing, accepted, mode);
    var peer := WithRotation(signing, accepted, mode).value;
    assert auth.signingSecret in TrimmedAll(accepted);
    assert auth.signingSecret in Elems(peer.verificationSecrets);
    SignedArrivesAndVerifies(mac, a, auth, addresses, peer);
  }
}
