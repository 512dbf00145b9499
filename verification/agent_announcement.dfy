/** The local announcement as an object whose setters change its fields in place. */
module AnnouncementObject {
  import opened Wrappers
  import opened Text
  import opened Ordering
  import opened Types
  import opened Announcements
  import opened Signing
  import opened Txt
  import C = Capabilities

  /** Whether a call succeeded, as its caller sees it. */
  function Reply(before: Announcement, s: Setter): Outcome<()> {
    match ApplySetter(before, s)
    case Ok(_) => Ok(())
    case Err(e) => Err(e)
  }

  lemma AddedIsLonger(capabilities: seq<string>, c: string)
    requires c !in capabilities
    ensures Sort(capabilities + [c]) != capabilities
  {
    SortIsSorted(capabilities + [c]);
    ElemsOfConcat(capabilities, [c]);
    assert c in Elems(Sort(capabilities + [c]));
  }

  class AgentAnnouncement {
    var instanceName: string
    var agentId: string
    var role: string
    var project: string
    var branch: string
    var status: AgentStatus
    var capabilities: seq<string>
    var port: Port
    var addresses: seq<IpAddr>
    var metadata: Metadata

    /** A copy of the announcement. */
    function Clone(): Announcement
      reads this
    {
      Announcement(instanceName, agentId, role, project, branch, status, capabilities, port, addresses, metadata)
    }

    constructor (a: Announcement)
      ensures Clone() == a
    {
      instanceName, agentId, role, project, branch := a.instanceName, a.agentId, a.role, a.project, a.branch;
      status, capabilities, port, addresses, metadata := a.status, a.capabilities, a.port, a.addresses, a.metadata;
    }

    method SetStatus(status: AgentStatus)
      modifies this
      ensures Clone() == Changed(old(Clone()), Announcements.SetStatus(status))
    {
      this.status := status;
      metadata := metadata[STATUS_KEY := StatusText(status)];
    }

    method SetCapabilities(names: seq<string>) returns (r: Outcome<()>)
      modifies this
      ensures r == Reply(old(Clone()), ChangeCapabilities(C.Replace(names)))
      ensures Clone() == Changed(old(Clone()), ChangeCapabilities(C.Replace(names)))
    {
      capabilities :- C.Canonicalize(names);
      metadata := C.Sync(metadata, capabilities);
      return Ok(());
    }

    method AddCapability(name: string) returns (r: Outcome<()>)
      modifies this
      ensures r == Reply(old(Clone()), ChangeCapabilities(C.Add(name)))
      ensures Clone() == Changed(old(Clone()), ChangeCapabilities(C.Add(name)))
    {
      var capability :- C.NormalizeCapability(name);
      if capability !in capabilities {
        AddedIsLonger(capabilities, capability);
        capabilities := Sort(capabilities + [capability]);
        metadata := C.Sync(metadata, capabilities);
      }
      return Ok(());
    }

    method RemoveCapability(name: string) returns (r: Outcome<()>)
      modifies this
      ensures r == Reply(old(Clone()), ChangeCapabilities(C.Remove(name)))
      ensures Clone() == Changed(old(Clone()), ChangeCapabilities(C.Remove(name)))
    {
      var capability :- C.NormalizeCapability(name);
      capabilities := C.Without(capabilities, capability);
      metadata := C.Sync(metadata, capabilities);
      return Ok(());
    }

    method SetProject(project: string) returns (r: Outcome<()>)
      modifies this
      ensures r == Reply(old(Clone()), Announcements.SetProject(project))
      ensures Clone() == Changed(old(Clone()), Announcements.SetProject(project))
    {
      var trimmed :- NormalizeRequired(project, "project");
      metadata := metadata[PROJECT_KEY := trimmed];
      this.project := trimmed;
      return Ok(());
    }

    method SetBranch(branch: string) returns (r: Outcome<()>)
      modifies this
      ensures r == Reply(old(Clone()), Announcements.SetBranch(branch))
      ensures Clone() == Changed(old(Clone()), Announcements.SetBranch(branch))
    {
      var trimmed :- NormalizeRequired(branch, "branch");
      metadata := metadata[BRANCH_KEY := trimmed];
      this.branch := trimmed;
      return Ok(());
    }

    method SetMetadata(key: string, value: string) returns (r: Outcome<()>)
      modifies this
      ensures r == Reply(old(Clone()), Announcements.SetMetadata(key, value))
      ensures Clone() == Changed(old(Clone()), Announcements.SetMetadata(key, value))
    {
      var trimmed :- NormalizeMetadataKey(key);
      if IsReservedKey(trimmed) {
        return Err(ReservedMetadataKey(trimmed));
      }
      metadata := metadata[trimmed := value];
      return Ok(());
    }

    method RemoveMetadata(key: string) returns (r: Outcome<()>)
      modifies this
      ensures r == Reply(old(Clone()), Announcements.RemoveMetadata(key))
      ensures Clone() == Changed(old(Clone()), Announcements.RemoveMetadata(key))
    {
      var trimmed :- NormalizeMetadataKey(key);
      if IsReservedKey(trimmed) {
        return Err(ReservedMetadataKey(trimmed));
      }
      metadata := metadata - {trimmed};
      return Ok(());
    }

    /** Any one of the setters. */
    method Apply(s: Setter) returns (r: Outcome<()>)
      modifies this
      ensures r == Reply(old(Clone()), s)
      ensures Clone() == Changed(old(Clone()), s)
    {
      match s {
        case SetStatus(status) =>
          SetStatus(status);
          r := Ok(());
        case ChangeCapabilities(Replace(names)) => r := SetCapabilities(names);
        case ChangeCapabilities(Add(name)) => r := AddCapability(name);
        case ChangeCapabilities(Remove(name)) => r := RemoveCapability(name);
        case SetProject(project) => r := SetProject(project);
        case SetBranch(branch) => r := SetBranch(branch);
        case SetMetadata(key, value) => r := SetMetadata(key, value);
        case RemoveMetadata(key) => r := RemoveMetadata(key);
      }
    }

    /** The signed payload, line by line: the eight fields, then every metadata entry that is not
        reserved, in the order of the keys. */
    method SignaturePayload() returns (payload: string)
      ensures payload == Payload(Clone())
    {
      var lines := FieldLines(Clone());
      var keys := InOrder(metadata.Keys);
      assert MetadataLines(keys, metadata) == MetadataLines(keys[0..], metadata);
      var i := 0;
      while i < |keys|
        invariant 0 <= i <= |keys|
        invariant Elems(keys[i..]) <= metadata.Keys
        invariant PayloadLines(Clone()) == lines + MetadataLines(keys[i..], metadata)
      {
        var rest := keys[i..];
        assert rest[0] == keys[i] && keys[i] in Elems(rest);
        assert rest[1..] == keys[i + 1..];
        assert Elems(rest[1..]) <= Elems(rest);
        if !IsReservedKey(keys[i]) {
          lines := lines + [Line(keys[i], metadata[keys[i]])];
        }
        i := i + 1;
      }
      assert PayloadLines(Clone()) == lines;
      payload := Join(lines, '\n');
    }

    /** The TXT properties, from a copy of the metadata whose canonical keys are overwritten. */
    method ToTxtProperties() returns (properties: seq<(string, string)>)
      ensures properties == Print(Clone())
    {
      var printed := metadata;
      printed := printed[AGENT_ID_KEY := agentId];
      printed := printed[ROLE_KEY := role];
      printed := printed[PROJECT_KEY := project];
      printed := printed[BRANCH_KEY := branch];
      printed := printed[STATUS_KEY := StatusText(status)];
      printed := C.Sync(printed, capabilities);
      properties := PrintMetadata(printed);
    }

    method ApplySharedSecretAuth(mac: Mac, auth: SharedSecretAuth)
      modifies this
      ensures Clone() == ApplyAuth(mac, old(Clone()), auth)
    {
      metadata := metadata[AUTH_SCHEME_KEY := SCHEME];
      var payload := SignaturePayload();
      metadata := metadata[SIGNATURE_KEY := mac(auth.signingSecret, payload)];
    }
  }
}
