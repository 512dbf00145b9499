/** The TXT record of a service: printing an announcement, carrying the entries over the wire as
    section 6 of RFC 6763 lays them out, and parsing what arrives. */
module Txt {
  import opened Wrappers
  import opened Text
  import opened Ordering
  import opened Types
  import opened Announcements
  import C = Capabilities

  /** The value of an arriving property: none, text, or bytes that are not UTF-8. */
  datatype TxtValue = Absent | Utf8(text: string) | NotUtf8
  datatype Property = Property(key: string, value: TxtValue)

  // ---------- printing ----------

  /** Five plain inserts under the canonical keys, before the capability key is brought in step. */
  function WithTypedFields(a: Announcement): Metadata {
    a.metadata[AGENT_ID_KEY := a.agentId][ROLE_KEY := a.role][PROJECT_KEY := a.project]
              [BRANCH_KEY := a.branch][STATUS_KEY := StatusText(a.status)]
  }

  /** The metadata that is printed: the canonical keys are overwritten from the typed fields. */
  function PrintedMetadata(a: Announcement): Metadata {
    C.Sync(WithTypedFields(a), a.capabilities)
  }

  function PrintKeys(keys: seq<string>, metadata: Metadata): seq<(string, string)>
    requires Elems(keys) <= metadata.Keys
  {
    if keys == [] then []
    else
      assert keys[0] in Elems(keys);
      assert Elems(keys[1..]) <= Elems(keys);
      [(keys[0], metadata[keys[0]])] + PrintKeys(keys[1..], metadata)
  }

  function PrintMetadata(metadata: Metadata): seq<(string, string)> {
    PrintKeys(InOrder(metadata.Keys), metadata)
  }

  function Print(a: Announcement): seq<(string, string)> {
    PrintMetadata(PrintedMetadata(a))
  }

  // ---------- the wire (RFC 6763, sections 6.3 and 6.4) ----------

  function Encode(entry: (string, string)): string {
    entry.0 + "=" + entry.1
  }

  function FirstEquals(s: string): (n: nat)
    ensures n <= |s|
    ensures forall i :: 0 <= i < n ==> s[i] != '='
    ensures n < |s| ==> s[n] == '='
  {
    if s == [] || s[0] == '=' then 0
    else
      var n := FirstEquals(s[1..]);
      n + 1
  }

  /** A string is cut at its first equals sign; without one it has no value. */
  function Decode(s: string): Property {
    var n := FirstEquals(s);
    if n < |s| then Property(s[..n], Utf8(s[n + 1..])) else Property(s, Absent)
  }

  /** Strings without a key are ignored, and so is every later string whose key differs from an
      earlier one at most in case. */
  function Receive(strings: seq<string>, seen: set<string>): seq<Property> {
    if strings == [] then []
    else
      var p := Decode(strings[0]);
      if p.key == [] || Lower(p.key) in seen then Receive(strings[1..], seen)
      else [p] + Receive(strings[1..], seen + {Lower(p.key)})
  }

  function EncodeAll(entries: seq<(string, string)>): seq<string> {
    if entries == [] then [] else [Encode(entries[0])] + EncodeAll(entries[1..])
  }

  function Carry(entries: seq<(string, string)>): seq<Property> {
    Receive(EncodeAll(entries), {})
  }

  // ---------- parsing ----------

  /** Stops at the first value that is not UTF-8; a later property replaces an earlier one. */
  function Collect(properties: seq<Property>, metadata: Metadata): Outcome<Metadata> {
    if properties == [] then Ok(metadata)
    else
      match properties[0].value
      case NotUtf8 => Err(InvalidTxtPropertyEncoding(properties[0].key))
      case Absent => Collect(properties[1..], metadata[properties[0].key := ""])
      case Utf8(text) => Collect(properties[1..], metadata[properties[0].key := text])
  }

  function Required(metadata: Metadata, key: string): Outcome<string> {
    if key in metadata && !Blank(metadata[key]) then Ok(metadata[key]) else Err(MissingTxtProperty(key))
  }

  function FromMetadata(instanceName: string, port: Port, addresses: seq<IpAddr>,
                        metadata: Metadata): Outcome<Announcement> {
    var agentId :- Required(metadata, AGENT_ID_KEY);
    var role :- Required(metadata, ROLE_KEY);
    var project :- Required(metadata, PROJECT_KEY);
    var branch :- Required(metadata, BRANCH_KEY);
    var statusText :- Required(metadata, STATUS_KEY);
    var status :- ParseStatus(statusText);
    New(instanceName, agentId, role, project, branch, status, port, addresses, metadata)
  }

  function Parse(instanceName: string, port: Port, addresses: seq<IpAddr>,
                 properties: seq<Property>): Outcome<Announcement> {
    var metadata :- Collect(properties, map[]);
    FromMetadata(instanceName, port, addresses, metadata)
  }

  // ---------- what is collected and parsed ----------

  predicate Arrives(properties: seq<Property>, key: string) {
    exists p :: p in properties && p.key == key
  }

  lemma ArrivesInPrepended(p: Property, rest: seq<Property>, key: string)
    ensures Arrives([p] + rest, key) <==> p.key == key || Arrives(rest, key)
  {
    assert p in [p] + rest;
  }

  predicate AllReadable(properties: seq<Property>) {
    forall p :: p in properties ==> !p.value.NotUtf8?
  }

  /** Nothing is collected from a record with a property that is not UTF-8; the error names the key of the
      first one. */
  lemma {:induction false} UnreadableIsRefused(properties: seq<Property>, acc: Metadata, i: nat)
    requires i < |properties| && properties[i].value.NotUtf8?
    requires AllReadable(properties[..i])
    ensures Collect(properties, acc) == Err(InvalidTxtPropertyEncoding(properties[i].key))
  {
    if i > 0 {
      var p, rest := properties[0], properties[1..];
      assert p in properties[..i];
      assert forall q :: q in rest[..i - 1] ==> q in properties[..i];
      match p.value
      case Absent => UnreadableIsRefused(rest, acc[p.key := ""], i - 1);
      case Utf8(text) => UnreadableIsRefused(rest, acc[p.key := text], i - 1);
    }
  }

  lemma {:induction false} CollectsAll(properties: seq<Property>, acc: Metadata)
    requires AllReadable(properties)
    ensures Collect(properties, acc).Ok?
    ensures forall k :: k in Collect(properties, acc).value <==> k in acc || Arrives(properties, k)
  {
    if properties != [] {
      var p, rest := properties[0], properties[1..];
      CollectsAll(rest, acc[p.key := TextOf(p.value)]);
      assert properties == [p] + rest;
      forall k ensures Arrives(properties, k) <==> p.key == k || Arrives(rest, k) {
        ArrivesInPrepended(p, rest, k);
      }
    }
  }

  /** A property without a value counts as one with the empty text. */
  function TextOf(value: TxtValue): string
    requires !value.NotUtf8?
  {
    match value
    case Absent => ""
    case Utf8(text) => text
  }

  /** Of several properties with one key the last one counts. */
  lemma {:induction false} LastPropertyCounts(properties: seq<Property>, acc: Metadata, i: nat)
    requires AllReadable(properties) && i < |properties|
    requires !Arrives(properties[i + 1..], properties[i].key)
    ensures properties[i] in properties
    ensures Collect(properties, acc).Ok?
            && Holds(Collect(properties, acc).value, properties[i].key, TextOf(properties[i].value))
  {
    var p, rest := properties[0], properties[1..];
    assert p in properties;
    if i > 0 {
      assert rest[i..] == properties[i + 1..];
      LastPropertyCounts(rest, acc[p.key := TextOf(p.value)], i - 1);
    } else {
      NothingComesAfter(rest, acc[p.key := TextOf(p.value)], p.key);
    }
  }

  lemma {:induction false} NothingComesAfter(properties: seq<Property>, acc: Metadata, key: string)
    requires AllReadable(properties) && !Arrives(properties, key) && key in acc
    ensures Collect(properties, acc).Ok? && Holds(Collect(properties, acc).value, key, acc[key])
  {
    if properties != [] {
      var p, rest := properties[0], properties[1..];
      assert p in properties;
      NothingComesAfter(rest, acc[p.key := TextOf(p.value)], key);
    }
  }

  /** The first required property, in the order of the code, that is missing or blank. */
  function FirstMissing(m: Metadata): Option<string> {
    if !Says(m, AGENT_ID_KEY) then Some(AGENT_ID_KEY)
    else if !Says(m, ROLE_KEY) then Some(ROLE_KEY)
    else if !Says(m, PROJECT_KEY) then Some(PROJECT_KEY)
    else if !Says(m, BRANCH_KEY) then Some(BRANCH_KEY)
    else if !Says(m, STATUS_KEY) then Some(STATUS_KEY)
    else None
  }

  predicate Says(m: Metadata, key: string) {
    key in m && !Blank(m[key])
  }

  predicate IsStatusText(text: string) {
    exists status :: Lower(Trim(text)) == StatusText(status)
  }

  lemma StatusTexts(text: string)
    ensures ParseStatus(text).Ok? <==> IsStatusText(text)
  {
    if ParseStatus(text).Ok? {
      ParseStatusIff(text, ParseStatus(text).value);
    }
    if status :| Lower(Trim(text)) == StatusText(status) {
      ParseStatusIff(text, status);
    }
  }

  /** A record is accepted exactly if no required property is missing or blank, the status is one, the name
      is not blank, the port is not zero and no key is blank. The announcement has the trimmed properties in
      its fields, and all of them in its metadata. */
  lemma FromMetadataIff(instanceName: string, port: Port, addresses: seq<IpAddr>, m: Metadata)
    ensures var r := FromMetadata(instanceName, port, addresses, m);
            && (r.Ok? <==> FirstMissing(m).None? && IsStatusText(m[STATUS_KEY])
                           && !Blank(instanceName) && port != 0 && !HasBlankKey(m))
            && (r.Ok? ==>
                  && Lower(Trim(m[STATUS_KEY])) == StatusText(r.value.status)
                  && MadeFrom(r.value, instanceName, m[AGENT_ID_KEY], m[ROLE_KEY], m[PROJECT_KEY], m[BRANCH_KEY],
                              r.value.status, port, addresses, m))
  {
    if FirstMissing(m).None? {
      StatusTexts(m[STATUS_KEY]);
      if ParseStatus(m[STATUS_KEY]).Ok? {
        var status := ParseStatus(m[STATUS_KEY]).value;
        ParseStatusIff(m[STATUS_KEY], status);
        var id, role, project, branch := m[AGENT_ID_KEY], m[ROLE_KEY], m[PROJECT_KEY], m[BRANCH_KEY];
        NewAccepts(instanceName, id, role, project, branch, status, port, addresses, m);
        NewFields(instanceName, id, role, project, branch, status, port, addresses, m);
      }
    }
  }

  /** A refusal names the first required property that is missing, else the status, else the name, the port
      or the keys. */
  lemma FromMetadataRefusal(instanceName: string, port: Port, addresses: seq<IpAddr>, m: Metadata)
    requires FromMetadata(instanceName, port, addresses, m).Err?
    ensures FromMetadata(instanceName, port, addresses, m).error
            == if FirstMissing(m).Some? then MissingTxtProperty(FirstMissing(m).value)
               else if !IsStatusText(m[STATUS_KEY]) then InvalidStatus(Lower(Trim(m[STATUS_KEY])))
               else if Blank(instanceName) then EmptyField("instance_name")
               else if port == 0 then InvalidPort
               else EmptyMetadataKey
  {
    if FirstMissing(m).None? {
      StatusTexts(m[STATUS_KEY]);
      ParseStatusIff(m[STATUS_KEY], Idle);
      if ParseStatus(m[STATUS_KEY]).Ok? {
        NewRefusal(instanceName, m[AGENT_ID_KEY], m[ROLE_KEY], m[PROJECT_KEY], m[BRANCH_KEY],
                   ParseStatus(m[STATUS_KEY]).value, port, addresses, m);
      }
    }
  }

  /** A record with a property that is not UTF-8 does not parse; the error names the first one. */
  lemma UnreadableDoesNotParse(instanceName: string, port: Port, addresses: seq<IpAddr>, properties: seq<Property>,
                               i: nat)
    requires i < |properties| && properties[i].value.NotUtf8? && AllReadable(properties[..i])
    ensures Parse(instanceName, port, addresses, properties) == Err(InvalidTxtPropertyEncoding(properties[i].key))
  {
    UnreadableIsRefused(properties, map[], i);
  }

  // ---------- the wire keeps safe metadata, and nothing else ----------

  predicate SafeKeys(keys: set<string>) {
    && (forall k :: k in keys ==> k != [] && '=' !in k)
    && (forall j, k :: j in keys && k in keys && Lower(j) == Lower(k) ==> j == k)
  }

  lemma DecodeOfEncode(k: string, v: string)
    requires '=' !in k
    ensures Decode(Encode((k, v))) == Property(k, Utf8(v))
  {
    var s := k + "=" + v;
    var n := FirstEquals(s);
    assert s[|k|] == '=';
    assert forall i :: 0 <= i < |k| ==> s[i] == k[i];
    assert n == |k|;
    assert s[..n] == k && s[n + 1..] == v;
  }

  predicate FreshKeys(keys: seq<string>, seen: set<string>) {
    forall k :: k in keys ==> Lower(k) !in seen
  }

  function Restrict(metadata: Metadata, keys: set<string>): Metadata {
    map k | k in metadata && k in keys :: metadata[k]
  }

  lemma RestrictStep(acc: Metadata, metadata: Metadata, k: string, rest: set<string>)
    requires k in metadata && k !in rest
    ensures acc[k := metadata[k]] + Restrict(metadata, rest) == acc + Restrict(metadata, rest + {k})
  {
  }

  lemma ReceiveStep(k: string, v: string, strings: seq<string>, seen: set<string>, acc: Metadata)
    requires k != [] && '=' !in k && Lower(k) !in seen
    ensures Collect(Receive([Encode((k, v))] + strings, seen), acc)
            == Collect(Receive(strings, seen + {Lower(k)}), acc[k := v])
  {
    DecodeOfEncode(k, v);
    var all := [Encode((k, v))] + strings;
    assert all[1..] == strings;
    var tail := Receive(strings, seen + {Lower(k)});
    assert ([Property(k, Utf8(v))] + tail)[1..] == tail;
  }

  lemma {:induction false} ReceiveSafe(keys: seq<string>, metadata: Metadata, seen: set<string>, acc: Metadata)
    requires Elems(keys) <= metadata.Keys && Ascending(keys)
    requires SafeKeys(Elems(keys)) && FreshKeys(keys, seen)
    ensures Collect(Receive(EncodeAll(PrintKeys(keys, metadata)), seen), acc)
            == Ok(acc + Restrict(metadata, Elems(keys)))
  {
    if keys == [] {
      assert acc + Restrict(metadata, Elems(keys)) == acc;
    } else {
      var k, rest := keys[0], keys[1..];
      assert k in Elems(keys);
      AscendingHead(keys);
      var next := seen + {Lower(k)};
      FreshRest(k, rest, keys, seen);
      ReceiveSafe(rest, metadata, next, acc[k := metadata[k]]);
      RestrictStep(acc, metadata, k, Elems(rest));
      assert Elems(rest) + {k} == Elems(keys);
      ReceiveStep(k, metadata[k], EncodeAll(PrintKeys(rest, metadata)), seen, acc);
      EncodeStep(keys, metadata);
    }
  }

  lemma EncodeStep(keys: seq<string>, metadata: Metadata)
    requires Elems(keys) <= metadata.Keys && keys != []
    ensures keys[0] in metadata && Elems(keys[1..]) <= metadata.Keys
    ensures EncodeAll(PrintKeys(keys, metadata))
            == [Encode((keys[0], metadata[keys[0]]))] + EncodeAll(PrintKeys(keys[1..], metadata))
  {
  }

  lemma FreshRest(k: string, rest: seq<string>, keys: seq<string>, seen: set<string>)
    requires SafeKeys(Elems(keys)) && FreshKeys(keys, seen)
    requires k in Elems(keys) && Elems(rest) == Elems(keys) - {k}
    ensures FreshKeys(rest, seen + {Lower(k)})
  {
    forall j | j in rest ensures Lower(j) !in seen + {Lower(k)} {
      assert j in Elems(rest);
      assert j in keys;
    }
  }

  /** All keys that come off the wire are safe together with the ones seen before. */
  lemma {:induction false} ReceivedKeys(strings: seq<string>, seen: set<string>)
    ensures var ps := Receive(strings, seen);
            && (forall p :: p in ps ==> p.key != [] && '=' !in p.key && Lower(p.key) !in seen)
            && (forall p, q :: p in ps && q in ps && Lower(p.key) == Lower(q.key) ==> p.key == q.key)
  {
    if strings != [] {
      var p := Decode(strings[0]);
      if p.key == [] || Lower(p.key) in seen {
        ReceivedKeys(strings[1..], seen);
      } else {
        ReceivedKeys(strings[1..], seen + {Lower(p.key)});
        assert strings[0][..|strings[0]|] == strings[0];
      }
    }
  }

  lemma {:induction false} CollectedKeys(properties: seq<Property>, metadata: Metadata)
    ensures Collect(properties, metadata).Ok? ==>
              forall k :: k in Collect(properties, metadata).value ==>
                k in metadata || exists p :: p in properties && p.key == k
  {
    if properties != [] {
      var p, rest := properties[0], properties[1..];
      match p.value
      case NotUtf8 =>
      case Absent => CollectedKeys(rest, metadata[p.key := ""]);
      case Utf8(text) => CollectedKeys(rest, metadata[p.key := text]);
    }
  }

  lemma CarriedKeysSafe(strings: seq<string>)
    ensures var r := Collect(Receive(strings, {}), map[]);
            r.Ok? ==> SafeKeys(r.value.Keys)
  {
    var ps := Receive(strings, {});
    ReceivedKeys(strings, {});
    CollectedKeys(ps, map[]);
  }

  /** Metadata survives the wire exactly when its keys are not empty, hold no equals sign and
      are distinct ignoring case. */
  lemma WireKeepsSafeMetadata(metadata: Metadata)
    ensures Collect(Carry(PrintMetadata(metadata)), map[]) == Ok(metadata) <==> SafeKeys(metadata.Keys)
  {
    var keys := InOrder(metadata.Keys);
    if SafeKeys(metadata.Keys) {
      InOrderAscending(metadata.Keys);
      ReceiveSafe(keys, metadata, {}, map[]);
      assert map[] + Restrict(metadata, Elems(keys)) == metadata;
    }
    CarriedKeysSafe(EncodeAll(PrintMetadata(metadata)));
  }
}
