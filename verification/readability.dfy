/** Which announcements can be read at all: a metadata key can displace a canonical property on the wire,
    by a spelling that differs in case, or bring in a blank key; nothing else makes a record unreadable. */
module Readability {
  import opened Wrappers
  import opened Text
  import opened Ordering
  import opened Types
  import opened Announcements
  import opened Txt
  import opened RoundTrips
  import opened CanonicalProperties

  // ---------- what a key becomes ----------

  /** The key under which the entry of a metadata key arrives. */
  function KeyPart(key: string): string {
    key[..FirstEquals(key)]
  }

  lemma DecodedKeyPart(key: string, value: string)
    ensures Decode(Encode((key, value))).key == KeyPart(key)
    ensures Decode(Encode((key, value))).value.Utf8?
  {
    var s := key + "=" + value;
    var n, m := FirstEquals(s), FirstEquals(key);
    assert s[|key|] == '=';
    assert forall i :: 0 <= i < |key| ==> s[i] == key[i];
    assert n == m;
    assert s[..n] == key[..n];
  }

  /** A smaller key arrives under a spelling of K, and keeps K out. */
  predicate Displaced(keys: set<string>, K: string) {
    exists j :: j in keys && Less(j, K) && Lower(KeyPart(j)) == Lower(K)
  }

  predicate ArrivesBlank(keys: set<string>) {
    exists j :: j in keys && KeyPart(j) != [] && Blank(KeyPart(j))
  }

  const CANONICAL_KEYS := {AGENT_ID_KEY, ROLE_KEY, PROJECT_KEY, BRANCH_KEY, STATUS_KEY}

  predicate Readable(keys: set<string>) {
    (forall K :: K in CANONICAL_KEYS ==> !Displaced(keys, K)) && !ArrivesBlank(keys)
  }

  // ---------- what arrives ----------

  /** The properties of the entries under some keys, after others have been seen. */
  function Received(keys: seq<string>, metadata: Metadata, seen: set<string>): seq<Property>
    requires Elems(keys) <= metadata.Keys
  {
    Receive(EncodeAll(PrintKeys(keys, metadata)), seen)
  }

  lemma ReceivedStep(keys: seq<string>, metadata: Metadata, seen: set<string>)
    requires Elems(keys) <= metadata.Keys && keys != []
    ensures keys[0] in metadata && Elems(keys[1..]) <= metadata.Keys
    ensures var part := KeyPart(keys[0]);
            Received(keys, metadata, seen)
            == if part == [] || Lower(part) in seen then Received(keys[1..], metadata, seen)
               else [Decode(Encode((keys[0], metadata[keys[0]])))] + Received(keys[1..], metadata, seen + {Lower(part)})
  {
    EncodeStep(keys, metadata);
    DecodedKeyPart(keys[0], metadata[keys[0]]);
    var strings := EncodeAll(PrintKeys(keys, metadata));
    assert strings[1..] == EncodeAll(PrintKeys(keys[1..], metadata));
  }

  lemma DisplacedStep(keys: seq<string>, K: string)
    requires keys != []
    ensures Displaced(Elems(keys), K)
            <==> (Less(keys[0], K) && Lower(KeyPart(keys[0])) == Lower(K)) || Displaced(Elems(keys[1..]), K)
  {
    assert Elems(keys) == {keys[0]} + Elems(keys[1..]) by {
      assert keys == [keys[0]] + keys[1..];
      ElemsOfConcat([keys[0]], keys[1..]);
    }
  }

  lemma NoneSmaller(keys: seq<string>, K: string)
    requires Ascending(keys) && keys != [] && keys[0] == K
    ensures !Displaced(Elems(keys), K)
  {
    forall j | j in Elems(keys) ensures !Less(j, K) {
      var i :| 0 <= i < |keys| && keys[i] == j;
      LessIrreflexive(K);
      if Less(j, K) && i > 0 {
        LessTransitive(K, j, K);
      }
    }
  }

  lemma SeenStaysOut(keys: seq<string>, metadata: Metadata, seen: set<string>, K: string)
    requires Elems(keys) <= metadata.Keys && Lower(K) in seen
    ensures !Arrives(Received(keys, metadata, seen), K)
  {
    ReceivedKeys(EncodeAll(PrintKeys(keys, metadata)), seen);
  }

  /** An announced key without equals sign arrives unless a spelling of it has been seen before it. */
  lemma {:induction false} KeyArrivesIff(keys: seq<string>, metadata: Metadata, seen: set<string>, K: string)
    requires Elems(keys) <= metadata.Keys && Ascending(keys)
    requires K in keys && K != [] && '=' !in K
    ensures Arrives(Received(keys, metadata, seen), K) <==> Lower(K) !in seen && !Displaced(Elems(keys), K)
    decreases |keys|, 1
  {
    var first, rest := keys[0], keys[1..];
    var part := KeyPart(first);
    ReceivedStep(keys, metadata, seen);
    AscendingHead(keys);
    if Lower(K) in seen {
      SeenStaysOut(keys, metadata, seen, K);
    } else if first == K {
      OwnKeyPart(K);
      DecodedKeyPart(K, metadata[K]);
      ArrivesInPrepended(Decode(Encode((K, metadata[K]))), Received(rest, metadata, seen + {Lower(K)}), K);
      NoneSmaller(keys, K);
    } else {
      LaterKeyArrivesIff(keys, metadata, seen, K);
    }
  }

  lemma OwnKeyPart(K: string)
    requires '=' !in K
    ensures KeyPart(K) == K
  {
  }

  lemma {:induction false} LaterKeyArrivesIff(keys: seq<string>, metadata: Metadata, seen: set<string>, K: string)
    requires Elems(keys) <= metadata.Keys && Ascending(keys)
    requires keys != [] && K in keys[1..] && K != keys[0] && K != [] && '=' !in K && Lower(K) !in seen
    ensures Arrives(Received(keys, metadata, seen), K) <==> !Displaced(Elems(keys), K)
    decreases |keys|, 0
  {
    var first, rest := keys[0], keys[1..];
    var part := KeyPart(first);
    var i :| 0 <= i < |rest| && rest[i] == K;
    assert Less(first, keys[i + 1]);
    ReceivedStep(keys, metadata, seen);
    AscendingHead(keys);
    DisplacedStep(keys, K);
    if part == [] || Lower(part) in seen {
      KeyArrivesIff(rest, metadata, seen, K);
    } else {
      FirstDoesNotDecodeTo(keys, metadata[first], K);
      KeyArrivesIff(rest, metadata, seen + {Lower(part)}, K);
      ArrivesInPrepended(Decode(Encode((first, metadata[first]))), Received(rest, metadata, seen + {Lower(part)}), K);
    }
  }

  // ---------- blank keys ----------

  lemma BlankHasNoCase(b: string, q: string)
    requires Blank(b) && Lower(q) == Lower(b)
    ensures q == b
  {
    BlankIsAllSpace(b);
    forall i | 0 <= i < |b| ensures q[i] == b[i] {
      assert IsSpace(b[i]);
      assert Lower(q)[i] == LowerChar(q[i]) && Lower(b)[i] == LowerChar(b[i]);
    }
  }

  predicate SomeBlank(properties: seq<Property>) {
    exists p :: p in properties && Blank(p.key)
  }

  predicate SomeBlankPart(keys: seq<string>, seen: set<string>) {
    exists i :: 0 <= i < |keys| && KeyPart(keys[i]) != [] && Blank(KeyPart(keys[i])) && Lower(KeyPart(keys[i])) !in seen
  }

  lemma SomeBlankPartStep(keys: seq<string>, seen: set<string>)
    requires keys != []
    ensures var part := KeyPart(keys[0]);
            SomeBlankPart(keys, seen)
            <==> (part != [] && Blank(part) && Lower(part) !in seen) || SomeBlankPart(keys[1..], seen)
  {
    if SomeBlankPart(keys[1..], seen) {
      var i :| 0 <= i < |keys[1..]| && KeyPart(keys[1..][i]) != [] && Blank(KeyPart(keys[1..][i]))
               && Lower(KeyPart(keys[1..][i])) !in seen;
      assert KeyPart(keys[i + 1]) != [];
    }
    if SomeBlankPart(keys, seen) {
      var i :| 0 <= i < |keys| && KeyPart(keys[i]) != [] && Blank(KeyPart(keys[i])) && Lower(KeyPart(keys[i])) !in seen;
      assert i > 0 ==> keys[i] == keys[1..][i - 1];
    }
  }

  lemma SeenMoreBlank(keys: seq<string>, seen: set<string>, part: string)
    requires !Blank(part)
    ensures SomeBlankPart(keys, seen + {Lower(part)}) <==> SomeBlankPart(keys, seen)
  {
    forall i | 0 <= i < |keys| && Blank(KeyPart(keys[i])) ensures Lower(KeyPart(keys[i])) != Lower(part) {
      if Lower(KeyPart(keys[i])) == Lower(part) {
        BlankHasNoCase(KeyPart(keys[i]), part);
      }
    }
  }

  /** A blank key arrives exactly if some key becomes blank. */
  lemma {:induction false} BlankArrivesIff(keys: seq<string>, metadata: Metadata, seen: set<string>)
    requires Elems(keys) <= metadata.Keys
    ensures SomeBlank(Received(keys, metadata, seen)) <==> SomeBlankPart(keys, seen)
  {
    if keys != [] {
      var part := KeyPart(keys[0]);
      ReceivedStep(keys, metadata, seen);
      SomeBlankPartStep(keys, seen);
      if part == [] || Lower(part) in seen {
        BlankArrivesIff(keys[1..], metadata, seen);
      } else {
        var head, tail := Decode(Encode((keys[0], metadata[keys[0]]))), Received(keys[1..], metadata, seen + {Lower(part)});
        DecodedKeyPart(keys[0], metadata[keys[0]]);
        BlankArrivesIff(keys[1..], metadata, seen + {Lower(part)});
        assert head in [head] + tail;
        assert SomeBlank([head] + tail) <==> Blank(head.key) || SomeBlank(tail);
        if !Blank(part) {
          SeenMoreBlank(keys[1..], seen, part);
        }
      }
    }
  }

  // ---------- what is collected ----------

  lemma {:induction false} AllText(keys: seq<string>, metadata: Metadata, seen: set<string>)
    requires Elems(keys) <= metadata.Keys
    ensures forall p :: p in Received(keys, metadata, seen) ==> p.value.Utf8?
  {
    if keys != [] {
      ReceivedStep(keys, metadata, seen);
      DecodedKeyPart(keys[0], metadata[keys[0]]);
      AllText(keys[1..], metadata, seen);
      AllText(keys[1..], metadata, seen + {Lower(KeyPart(keys[0]))});
    }
  }

  /** What is collected from a printed record: the canonical keys that are not displaced, and a blank key
      exactly if some key becomes blank. */
  lemma CollectedKeysOf(metadata: Metadata, K: string)
    requires K in metadata && K != [] && '=' !in K
    ensures var r := Collect(Carry(PrintMetadata(metadata)), map[]);
            && r.Ok?
            && (K in r.value <==> !Displaced(metadata.Keys, K))
            && (HasBlankKey(r.value) <==> ArrivesBlank(metadata.Keys))
  {
    var keys := InOrder(metadata.Keys);
    InOrderAscending(metadata.Keys);
    InOrderElems(metadata.Keys);
    AllText(keys, metadata, {});
    CollectsAll(Received(keys, metadata, {}), map[]);
    KeyArrivesIff(keys, metadata, {}, K);
    BlankArrivesIff(keys, metadata, {});
    BlankOfCollected(Received(keys, metadata, {}), Collect(Received(keys, metadata, {}), map[]).value);
    BlankPartsOf(metadata.Keys);
  }

  lemma BlankOfCollected(properties: seq<Property>, m: Metadata)
    requires forall k :: k in m <==> Arrives(properties, k)
    ensures HasBlankKey(m) <==> SomeBlank(properties)
  {
    if SomeBlank(properties) {
      var p :| p in properties && Blank(p.key);
      assert Arrives(properties, p.key);
    }
  }

  lemma BlankPartsOf(keys: set<string>)
    ensures SomeBlankPart(InOrder(keys), {}) <==> ArrivesBlank(keys)
  {
    InOrderElems(keys);
    if ArrivesBlank(keys) {
      var j :| j in keys && KeyPart(j) != [] && Blank(KeyPart(j));
      assert j in InOrder(keys);
    }
    if SomeBlankPart(InOrder(keys), {}) {
      var i :| 0 <= i < |InOrder(keys)| && KeyPart(InOrder(keys)[i]) != [] && Blank(KeyPart(InOrder(keys)[i]));
      assert InOrder(keys)[i] in InOrder(keys);
    }
  }

  // ---------- what parses ----------

  predicate HasCanonical(m: Metadata) {
    && AGENT_ID_KEY in m && ROLE_KEY in m && PROJECT_KEY in m && BRANCH_KEY in m && STATUS_KEY in m
  }

  /** Where the canonical keys, if they are there, hold the fields of a. */
  predicate TellsOf(a: Announcement, m: Metadata) {
    && (AGENT_ID_KEY in m ==> m[AGENT_ID_KEY] == a.agentId)
    && (ROLE_KEY in m ==> m[ROLE_KEY] == a.role)
    && (PROJECT_KEY in m ==> m[PROJECT_KEY] == a.project)
    && (BRANCH_KEY in m ==> m[BRANCH_KEY] == a.branch)
    && (STATUS_KEY in m ==> m[STATUS_KEY] == StatusText(a.status))
  }

  lemma RequiredIff(m: Metadata, key: string, value: string)
    requires Clean(value) && (key in m ==> m[key] == value)
    ensures Required(m, key) == if key in m then Ok(value) else Err(MissingTxtProperty(key))
  {
    TrimOfTrimmed(value);
  }

  lemma FromMetadataOkIff(a: Announcement, addresses: seq<IpAddr>, m: Metadata)
    requires CleanFields(a) && a.port != 0 && TellsOf(a, m)
    ensures FromMetadata(a.instanceName, a.port, addresses, m).Ok? <==> HasCanonical(m) && !HasBlankKey(m)
  {
    StatusRoundTrip(a.status);
    RequiredIff(m, AGENT_ID_KEY, a.agentId);
    RequiredIff(m, ROLE_KEY, a.role);
    RequiredIff(m, PROJECT_KEY, a.project);
    RequiredIff(m, BRANCH_KEY, a.branch);
    RequiredIff(m, STATUS_KEY, StatusText(a.status));
    FieldsNotBlank(a);
    NewAccepts(a.instanceName, a.agentId, a.role, a.project, a.branch, a.status, a.port, addresses, m);
  }

  lemma FieldsNotBlank(a: Announcement)
    requires CleanFields(a)
    ensures !Blank(a.instanceName) && !Blank(a.agentId) && !Blank(a.role) && !Blank(a.project) && !Blank(a.branch)
  {
    TrimOfTrimmed(a.instanceName);
    TrimOfTrimmed(a.agentId);
    TrimOfTrimmed(a.role);
    TrimOfTrimmed(a.project);
    TrimOfTrimmed(a.branch);
  }

  /** The metadata collected from the record of an announcement. */
  function Collected(a: Announcement): Outcome<Metadata> {
    Collect(Carry(PrintMetadata(PrintedMetadata(a))), map[])
  }

  lemma CollectedAt(a: Announcement, K: string)
    requires WellFormed(a) && K in CANONICAL_KEYS && K in PrintedMetadata(a)
    ensures var r, m := Collected(a), PrintedMetadata(a);
            && r.Ok? && (K in r.value <==> !Displaced(m.Keys, K)) && (K in r.value ==> r.value[K] == m[K])
            && (HasBlankKey(r.value) <==> ArrivesBlank(m.Keys))
  {
    CanonicalKeysHaveNoEquals();
    CollectedKeysOf(PrintedMetadata(a), K);
    CarriedValue(PrintedMetadata(a), K);
  }

  lemma ReadableMeaning(keys: set<string>)
    ensures Readable(keys)
            <==> !Displaced(keys, AGENT_ID_KEY) && !Displaced(keys, ROLE_KEY) && !Displaced(keys, PROJECT_KEY)
                 && !Displaced(keys, BRANCH_KEY) && !Displaced(keys, STATUS_KEY) && !ArrivesBlank(keys)
  {
    assert AGENT_ID_KEY in CANONICAL_KEYS && ROLE_KEY in CANONICAL_KEYS && PROJECT_KEY in CANONICAL_KEYS;
    assert BRANCH_KEY in CANONICAL_KEYS && STATUS_KEY in CANONICAL_KEYS;
  }

  lemma PrintedHolds(a: Announcement)
    ensures var m := PrintedMetadata(a);
            && Holds(m, AGENT_ID_KEY, a.agentId) && Holds(m, ROLE_KEY, a.role) && Holds(m, PROJECT_KEY, a.project)
            && Holds(m, BRANCH_KEY, a.branch) && Holds(m, STATUS_KEY, StatusText(a.status))
  {
    PrintedIsSynced(a);
  }

  lemma CollectedCanonical(a: Announcement)
    requires WellFormed(a)
    ensures Collected(a).Ok? && TellsOf(a, Collected(a).value)
    ensures HasCanonical(Collected(a).value) && !HasBlankKey(Collected(a).value) <==> Readable(PrintedMetadata(a).Keys)
  {
    PrintedHolds(a);
    CollectedAt(a, AGENT_ID_KEY);
    CollectedAt(a, ROLE_KEY);
    CollectedAt(a, PROJECT_KEY);
    CollectedAt(a, BRANCH_KEY);
    CollectedAt(a, STATUS_KEY);
    ReadableMeaning(PrintedMetadata(a).Keys);
  }

  lemma CanonicalKeysHaveNoEquals()
    ensures forall K :: K in CANONICAL_KEYS ==> K != [] && '=' !in K
  {
  }

  /** The record of a well-formed announcement can be read exactly if no smaller key displaces a canonical
      one, and no key becomes blank. */
  lemma ParsesIffReadable(a: Announcement, addresses: seq<IpAddr>)
    requires WellFormed(a)
    ensures Parse(a.instanceName, a.port, addresses, Carry(Print(a))).Ok? <==> Readable(PrintedMetadata(a).Keys)
  {
    CollectedCanonical(a);
    FromMetadataOkIff(a, addresses, Collected(a).value);
  }

  // ---------- a key that hides a node ----------

  /** A metadata key that spells a canonical key with capitals sorts before it, is accepted, and makes the
      record unreadable. */
  lemma CapitalsHide(a: Announcement, key: string, value: string, K: string, addresses: seq<IpAddr>)
    requires WellFormed(a) && Synced(a) && K in CANONICAL_KEYS
    requires Clean(key) && '=' !in key && !IsReservedKey(key) && Less(key, K) && Lower(key) == Lower(K)
    ensures var r := ApplySetter(a, SetMetadata(key, value));
            && r.Ok?
            && Parse(a.instanceName, a.port, addresses, Carry(Print(r.value))).Err?
  {
    OpenKeyIsAccepted(a, key, value);
    ChangeKeepsForm(a, SetMetadata(key, value));
    ChangeKeepsSync(a, SetMetadata(key, value));
    DisplacingKeyHides(Changed(a, SetMetadata(key, value)), key, K, addresses);
  }

  lemma OpenKeyIsAccepted(a: Announcement, key: string, value: string)
    requires Clean(key) && !IsReservedKey(key)
    ensures ApplySetter(a, SetMetadata(key, value)) == Ok(a.(metadata := a.metadata[key := value]))
    ensures Changed(a, SetMetadata(key, value)) == a.(metadata := a.metadata[key := value])
  {
    TrimOfTrimmed(key);
  }

  lemma DisplacingKeyHides(b: Announcement, key: string, K: string, addresses: seq<IpAddr>)
    requires WellFormed(b) && Synced(b) && key in b.metadata && K in CANONICAL_KEYS
    requires '=' !in key && Less(key, K) && Lower(key) == Lower(K)
    ensures Parse(b.instanceName, b.port, addresses, Carry(Print(b))).Err?
  {
    SyncedPrintsItsMetadata(b);
    OwnKeyPart(key);
    assert Displaced(b.metadata.Keys, K);
    ParsesIffReadable(b, addresses);
  }

  lemma RoleWithCapital()
    ensures Clean("Role") && '=' !in "Role" && Less("Role", ROLE_KEY) && Lower("Role") == Lower(ROLE_KEY)
    ensures !IsReservedKey("Role") && ROLE_KEY in CANONICAL_KEYS
  {
    assert Lower("Role") == Lower("role");
  }

  /** The metadata key Role hides a node from all its peers. */
  lemma RoleHides(a: Announcement, value: string, addresses: seq<IpAddr>)
    requires WellFormed(a) && Synced(a)
    ensures var r := ApplySetter(a, SetMetadata("Role", value));
            && r.Ok?
            && Parse(a.instanceName, a.port, addresses, Carry(Print(r.value))).Err?
  {
    RoleWithCapital();
    CapitalsHide(a, "Role", value, ROLE_KEY, addresses);
  }
}
