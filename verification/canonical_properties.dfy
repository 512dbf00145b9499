/** No metadata key, however it is spelled, can replace a canonical property on the wire. */
module CanonicalProperties {
  import opened Text
  import opened Ordering
  import opened Types
  import opened Announcements
  import opened Txt
  import opened RoundTrips

  /** A string that decodes to the key K is the entry of K or of a key greater than K. */
  lemma DecodedKeyIsNotSmaller(key: string, value: string, K: string)
    requires '=' !in K && Decode(Encode((key, value))).key == K
    ensures key == K || Less(K, key)
  {
    var s := Encode((key, value));
    var n := FirstEquals(s);
    assert s[|key|] == '=';
    assert K == s[..n] && n <= |key|;
    if n < |key| {
      assert key[..n] == s[..n];
      ExtensionIsGreater(K, key);
    } else {
      assert s[..n] == key;
    }
  }

  /** Every property that arrives under the key K carries the value announced under K: keys that
      sort before K cannot decode to K, and once K has been seen, nothing decodes to it again. */
  lemma {:induction false} ArrivesUnaltered(keys: seq<string>, metadata: Metadata, seen: set<string>, K: string)
    requires Elems(keys) <= metadata.Keys && Ascending(keys)
    requires '=' !in K && K in metadata
    requires K in keys || Lower(K) in seen
    ensures forall p :: p in Receive(EncodeAll(PrintKeys(keys, metadata)), seen) && p.key == K ==>
                          p.value == Utf8(metadata[K])
  {
    var strings := EncodeAll(PrintKeys(keys, metadata));
    if Lower(K) in seen {
      ReceivedKeys(strings, seen);
    } else {
      var first, rest := keys[0], keys[1..];
      EncodeStep(keys, metadata);
      AscendingHead(keys);
      var d := Decode(Encode((first, metadata[first])));
      var tail := EncodeAll(PrintKeys(rest, metadata));
      assert strings == [Encode((first, metadata[first]))] + tail;
      assert strings[1..] == tail;
      if first == K {
        DecodeOfEncode(K, metadata[K]);
        if K != [] {
          ArrivesUnaltered(rest, metadata, seen + {Lower(K)}, K);
        } else {
          ReceivedKeys(strings, seen);
        }
      } else {
        assert K in rest;
        FirstDoesNotDecodeTo(keys, metadata[first], K);
        ArrivesUnaltered(rest, metadata, seen, K);
        ArrivesUnaltered(rest, metadata, seen + {Lower(d.key)}, K);
      }
    }
  }

  lemma FirstDoesNotDecodeTo(keys: seq<string>, value: string, K: string)
    requires Ascending(keys) && keys != [] && K in keys[1..] && '=' !in K
    ensures Decode(Encode((keys[0], value))).key != K
  {
    var i :| 0 <= i < |keys[1..]| && keys[1..][i] == K;
    assert keys[i + 1] == K;
    if Decode(Encode((keys[0], value))).key == K {
      DecodedKeyIsNotSmaller(keys[0], value, K);
      LessIrreflexive(K);
      if Less(K, keys[0]) {
        LessTransitive(K, keys[0], K);
      }
    }
  }

  lemma {:induction false} CollectedValue(properties: seq<Property>, acc: Metadata, K: string, value: string)
    requires forall p :: p in properties && p.key == K ==> p.value == Utf8(value)
    requires K in acc ==> acc[K] == value
    ensures var r := Collect(properties, acc);
            r.Ok? && K in r.value ==> r.value[K] == value
  {
    if properties != [] {
      var p, rest := properties[0], properties[1..];
      match p.value
      case NotUtf8 =>
      case Absent => CollectedValue(rest, acc[p.key := ""], K, value);
      case Utf8(text) => CollectedValue(rest, acc[p.key := text], K, value);
    }
  }

  lemma CarriedValue(metadata: Metadata, K: string)
    requires K in metadata && '=' !in K
    ensures var r := Collect(Carry(PrintMetadata(metadata)), map[]);
            r.Ok? && K in r.value ==> r.value[K] == metadata[K]
  {
    var keys := InOrder(metadata.Keys);
    InOrderAscending(metadata.Keys);
    InOrderElems(metadata.Keys);
    ArrivesUnaltered(keys, metadata, {}, K);
    CollectedValue(Carry(PrintMetadata(metadata)), map[], K, metadata[K]);
  }

  /** Whatever metadata keys an announcement has, if its record parses at all then the parsed id,
      role, project, branch and status are the announced ones. */
  lemma ParsedFieldsAreAnnounced(a: Announcement, addresses: seq<IpAddr>)
    requires WellFormed(a)
    ensures var r := Parse(a.instanceName, a.port, addresses, Carry(Print(a)));
            r.Ok? ==>
              && r.value.instanceName == a.instanceName && r.value.port == a.port
              && r.value.agentId == a.agentId && r.value.role == a.role && r.value.project == a.project
              && r.value.branch == a.branch && r.value.status == a.status
  {
    var m := PrintedMetadata(a);
    PrintedIsSynced(a);
    CarriedValue(m, AGENT_ID_KEY);
    CarriedValue(m, ROLE_KEY);
    CarriedValue(m, PROJECT_KEY);
    CarriedValue(m, BRANCH_KEY);
    CarriedValue(m, STATUS_KEY);
    var collected := Collect(Carry(PrintMetadata(m)), map[]);
    if Parse(a.instanceName, a.port, addresses, Carry(Print(a))).Ok? {
      FieldsOfParsed(a, addresses, collected.value);
    }
  }

  lemma FieldsOfParsed(a: Announcement, addresses: seq<IpAddr>, m: Metadata)
    requires CleanFields(a) && FromMetadata(a.instanceName, a.port, addresses, m).Ok?
    requires AGENT_ID_KEY in m ==> m[AGENT_ID_KEY] == a.agentId
    requires ROLE_KEY in m ==> m[ROLE_KEY] == a.role
    requires PROJECT_KEY in m ==> m[PROJECT_KEY] == a.project
    requires BRANCH_KEY in m ==> m[BRANCH_KEY] == a.branch
    requires STATUS_KEY in m ==> m[STATUS_KEY] == StatusText(a.status)
    ensures var b := FromMetadata(a.instanceName, a.port, addresses, m).value;
            && b.instanceName == a.instanceName && b.port == a.port
            && b.agentId == a.agentId && b.role == a.role && b.project == a.project
            && b.branch == a.branch && b.status == a.status
  {
    NormalizeRequiredClean(a.instanceName, "instance_name");
    NormalizeRequiredClean(a.agentId, "agent_id");
    NormalizeRequiredClean(a.role, "role");
    NormalizeRequiredClean(a.project, "project");
    NormalizeRequiredClean(a.branch, "branch");
    StatusRoundTrip(a.status);
  }
}
