/** Capability lists: their canonical form, their comma-separated wire form, and the
    three operations that change them. A canonical list stands for a set of names. */
module Capabilities {
  import opened Wrappers
  import opened Text
  import opened Ordering
  import opened Types

  /** A capability name as it is stored: not empty, trimmed, without a comma. */
  predicate IsCapability(c: string) {
    Clean(c) && ',' !in c
  }

  predicate Canonical(capabilities: seq<string>) {
    && Ascending(capabilities)
    && forall i :: 0 <= i < |capabilities| ==> IsCapability(capabilities[i])
  }

  function NormalizeCapability(capability: string): Outcome<string> {
    var trimmed := Trim(capability);
    if trimmed == [] then Err(EmptyCapability)
    else if ',' in trimmed then Err(InvalidCapability(trimmed))
    else Ok(trimmed)
  }

  /** Stops at the first name that is refused. */
  function NormalizeAll(capabilities: seq<string>): Outcome<seq<string>> {
    if capabilities == [] then Ok([])
    else
      var first :- NormalizeCapability(capabilities[0]);
      var rest :- NormalizeAll(capabilities[1..]);
      Ok([first] + rest)
  }

  function Canonicalize(capabilities: seq<string>): Outcome<seq<string>> {
    var normalized :- NormalizeAll(capabilities);
    Ok(Dedup(Sort(normalized)))
  }

  function Sync(metadata: Metadata, capabilities: seq<string>): Metadata {
    if capabilities == [] then metadata - {CAPABILITIES_KEY}
    else metadata[CAPABILITIES_KEY := Join(capabilities, ',')]
  }

  /** The metadata key says what the list says, and is absent when the list is empty. */
  predicate InStep(metadata: Metadata, capabilities: seq<string>) {
    if capabilities == [] then CAPABILITIES_KEY !in metadata
    else CAPABILITIES_KEY in metadata && metadata[CAPABILITIES_KEY] == Join(capabilities, ',')
  }

  lemma SyncInStep(metadata: Metadata, capabilities: seq<string>)
    ensures InStep(Sync(metadata, capabilities), capabilities)
    ensures InStep(metadata, capabilities) ==> Sync(metadata, capabilities) == metadata
  {
  }

  /** The parts of a comma-separated list that are not blank, trimmed. */
  function NonBlankParts(parts: seq<string>): seq<string> {
    if parts == [] then []
    else
      var trimmed := Trim(parts[0]);
      (if trimmed == [] then [] else [trimmed]) + NonBlankParts(parts[1..])
  }

  function FromMetadata(metadata: Metadata): Outcome<seq<string>> {
    if CAPABILITIES_KEY in metadata
    then Canonicalize(NonBlankParts(Split(metadata[CAPABILITIES_KEY], ',')))
    else Ok([])
  }

  // ---------- the operations on a stored list ----------

  datatype CapabilityOp = Replace(names: seq<string>) | Add(name: string) | Remove(name: string)

  function Without(capabilities: seq<string>, name: string): seq<string> {
    if capabilities == [] then []
    else (if capabilities[0] == name then [] else [capabilities[0]]) + Without(capabilities[1..], name)
  }

  function ApplyOp(capabilities: seq<string>, op: CapabilityOp): Outcome<seq<string>> {
    match op
    case Replace(names) => Canonicalize(names)
    case Add(name) =>
      var c :- NormalizeCapability(name);
      Ok(if c in capabilities then capabilities else Sort(capabilities + [c]))
    case Remove(name) =>
      var c :- NormalizeCapability(name);
      Ok(Without(capabilities, c))
  }

  /** A rejected operation leaves the list as it was. */
  function RunOps(capabilities: seq<string>, ops: seq<CapabilityOp>): seq<string>
    decreases |ops|
  {
    if ops == [] then capabilities
    else
      var next := match ApplyOp(capabilities, ops[0]) case Ok(c) => c case Err(_) => capabilities;
      RunOps(next, ops[1..])
  }

  // ---------- the same operations on a set ----------

  predicate Acceptable(name: string) {
    !Blank(name) && ',' !in Trim(name)
  }

  predicate AcceptableOp(op: CapabilityOp) {
    match op
    case Replace(names) => forall i :: 0 <= i < |names| ==> Acceptable(names[i])
    case Add(name) => Acceptable(name)
    case Remove(name) => Acceptable(name)
  }

  function ApplyToSet(s: set<string>, op: CapabilityOp): set<string> {
    if !AcceptableOp(op) then s
    else match op
      case Replace(names) => TrimmedAll(names)
      case Add(name) => s + {Trim(name)}
      case Remove(name) => s - {Trim(name)}
  }

  function RunOnSet(s: set<string>, ops: seq<CapabilityOp>): set<string>
    decreases |ops|
  {
    if ops == [] then s else RunOnSet(ApplyToSet(s, ops[0]), ops[1..])
  }

  // ---------- proofs ----------

  lemma {:induction false} NormalizeAllMeaning(names: seq<string>)
    ensures NormalizeAll(names).Ok? <==> forall i :: 0 <= i < |names| ==> Acceptable(names[i])
    ensures NormalizeAll(names).Ok? ==>
              var v := NormalizeAll(names).value;
              |v| == |names| && forall i :: 0 <= i < |v| ==> v[i] == Trim(names[i]) && IsCapability(v[i])
  {
    if names != [] {
      NormalizeAllMeaning(names[1..]);
      assert forall i :: 0 < i < |names| ==> names[i] == names[1..][i - 1];
      assert NormalizeCapability(names[0]).Ok? <==> Acceptable(names[0]);
      if NormalizeAll(names).Err? {
        if NormalizeCapability(names[0]).Ok? {
          var i :| 0 <= i < |names[1..]| && !Acceptable(names[1..][i]);
          assert !Acceptable(names[i + 1]);
        }
      }
    }
  }

  /** A list of names is accepted exactly when every name is; the result is then the canonical
      list of the trimmed names. */
  lemma CanonicalizeMeaning(names: seq<string>)
    ensures Canonicalize(names).Ok? <==> AcceptableOp(Replace(names))
    ensures Canonicalize(names).Ok? ==>
              Canonical(Canonicalize(names).value) && Elems(Canonicalize(names).value) == TrimmedAll(names)
  {
    NormalizeAllMeaning(names);
    if NormalizeAll(names).Ok? {
      var v := NormalizeAll(names).value;
      SortDedup(v);
      var c := Canonicalize(names).value;
      forall i | 0 <= i < |c| ensures IsCapability(c[i]) {
        assert c[i] in Elems(c);
        assert c[i] in v;
      }
      forall x ensures x in Elems(v) <==> x in TrimmedAll(names) {
        if x in Elems(v) {
          var i :| 0 <= i < |v| && v[i] == x;
          assert x == Trim(names[i]);
        }
        if x in TrimmedAll(names) {
          var i :| 0 <= i < |names| && x == Trim(names[i]);
          assert v[i] == x;
        }
      }
    }
  }

  /** The error for a name that is refused: a blank one, or one with a comma. */
  function Refusal(name: string): ZeroConfError {
    if Blank(name) then EmptyCapability else InvalidCapability(Trim(name))
  }

  lemma {:induction false} FirstRefusal(names: seq<string>, k: nat)
    requires k < |names| && !Acceptable(names[k])
    requires forall i :: 0 <= i < k ==> Acceptable(names[i])
    ensures Canonicalize(names) == Err(Refusal(names[k]))
  {
    if k > 0 {
      assert forall i :: 0 < i < |names| ==> names[i] == names[1..][i - 1];
      FirstRefusal(names[1..], k - 1);
      assert Acceptable(names[0]);
    }
  }

  lemma {:induction false} InsertAscending(x: string, s: seq<string>)
    requires Ascending(s) && x !in s
    ensures Ascending(Insert(x, s))
  {
    if s != [] {
      if Less(s[0], x) {
        var t := Insert(x, s[1..]);
        InsertAscending(x, s[1..]);
        InsertElems(x, s[1..]);
        forall j | 0 <= j < |t| ensures Less(s[0], t[j]) {
          assert t[j] in Elems(t);
        }
        PrependAscending(s[0], t);
      } else {
        LessTotal(s[0], x);
        forall j | 0 <= j < |s| ensures Less(x, s[j]) {
          if j > 0 {
            LessTransitive(x, s[0], s[j]);
          }
        }
        PrependAscending(x, s);
      }
    }
  }

  predicate Distinct(s: seq<string>) {
    forall i, j :: 0 <= i < j < |s| ==> s[i] != s[j]
  }

  lemma {:induction false} SortDistinct(s: seq<string>)
    requires Distinct(s)
    ensures Ascending(Sort(s))
  {
    if s != [] {
      SortDistinct(s[1..]);
      SortIsSorted(s[1..]);
      assert s[0] !in Elems(s[1..]);
      assert forall x :: x in Sort(s[1..]) ==> x in Elems(Sort(s[1..]));
      InsertAscending(s[0], Sort(s[1..]));
    }
  }

  lemma {:induction false} WithoutMeaning(s: seq<string>, name: string)
    requires Ascending(s)
    ensures Ascending(Without(s, name)) && Elems(Without(s, name)) == Elems(s) - {name}
  {
    if s != [] {
      var t := Without(s[1..], name);
      WithoutMeaning(s[1..], name);
      assert s == [s[0]] + s[1..];
      ElemsOfConcat([s[0]], s[1..]);
      if s[0] == name {
        assert Without(s, name) == t;
      } else {
        ElemsOfConcat([s[0]], t);
        forall j | 0 <= j < |t| ensures Less(s[0], t[j]) {
          assert t[j] in Elems(t);
          assert t[j] in Elems(s[1..]);
        }
        PrependAscending(s[0], t);
      }
    }
  }

  lemma AddMeaning(capabilities: seq<string>, c: string)
    requires Canonical(capabilities) && c !in capabilities && IsCapability(c)
    ensures Canonical(Sort(capabilities + [c]))
    ensures Elems(Sort(capabilities + [c])) == Elems(capabilities) + {c}
  {
    var all := capabilities + [c];
    forall i, j | 0 <= i < j < |all| ensures all[i] != all[j] {
      if j < |capabilities| {
        LessIrreflexive(all[i]);
      }
    }
    SortDistinct(all);
    SortIsSorted(all);
    ElemsOfConcat(capabilities, [c]);
    var s := Sort(all);
    forall i | 0 <= i < |s| ensures IsCapability(s[i]) {
      assert s[i] in Elems(s);
    }
  }

  /** One operation acts on the list as replace, insert and delete act on a set, keeps it
      canonical, and is refused exactly when a name in it is blank or holds a comma. */
  lemma OpActsOnSet(capabilities: seq<string>, op: CapabilityOp)
    requires Canonical(capabilities)
    ensures ApplyOp(capabilities, op).Ok? <==> AcceptableOp(op)
    ensures ApplyOp(capabilities, op).Ok? ==>
              var next := ApplyOp(capabilities, op).value;
              Canonical(next) && Elems(next) == ApplyToSet(Elems(capabilities), op)
    ensures !op.Replace? && !Acceptable(op.name) ==> ApplyOp(capabilities, op) == Err(Refusal(op.name))
  {
    match op
    case Replace(names) =>
      CanonicalizeMeaning(names);
    case Add(name) =>
      if Acceptable(name) {
        var c := Trim(name);
        if c in capabilities {
          assert Elems(capabilities) + {c} == Elems(capabilities);
        } else {
          AddMeaning(capabilities, c);
        }
      }
    case Remove(name) =>
      if Acceptable(name) {
        var c := Trim(name);
        WithoutMeaning(capabilities, c);
        var next := Without(capabilities, c);
        forall i | 0 <= i < |next| ensures IsCapability(next[i]) {
          assert next[i] in Elems(next);
          assert next[i] in Elems(capabilities);
        }
      }
  }

  /** Under any sequence of operations the list stays canonical and stands for the set that the
      same operations build. */
  lemma {:induction false} OpsRefineSet(capabilities: seq<string>, ops: seq<CapabilityOp>)
    requires Canonical(capabilities)
    ensures Canonical(RunOps(capabilities, ops))
    ensures Elems(RunOps(capabilities, ops)) == RunOnSet(Elems(capabilities), ops)
    decreases |ops|
  {
    if ops != [] {
      OpActsOnSet(capabilities, ops[0]);
      match ApplyOp(capabilities, ops[0])
      case Ok(next) => OpsRefineSet(next, ops[1..]);
      case Err(_) => OpsRefineSet(capabilities, ops[1..]);
    }
  }

  // ---------- the wire form ----------

  lemma {:induction false} NonBlankPartsOfClean(parts: seq<string>)
    requires forall p :: p in parts ==> Clean(p)
    ensures NonBlankParts(parts) == parts
  {
    if parts != [] {
      var first, rest := parts[0], parts[1..];
      assert Clean(first);
      TrimOfTrimmed(first);
      NonBlankPartsOfClean(rest);
      assert parts == [first] + rest;
    }
  }

  lemma TrimFreeOf(s: string, c: char)
    requires c !in s
    ensures c !in Trim(s)
  {
    TrimStartCuts(s);
    TrimEndCuts(TrimStart(s));
  }

  lemma {:induction false} NonBlankPartsAcceptable(parts: seq<string>)
    requires forall p :: p in parts ==> ',' !in p
    ensures forall p :: p in NonBlankParts(parts) ==> Acceptable(p)
  {
    if parts != [] {
      var first, rest := parts[0], parts[1..];
      NonBlankPartsAcceptable(rest);
      TrimFreeOf(first, ',');
      TrimOfTrimmed(Trim(first));
    }
  }

  /** Reading capabilities out of metadata never fails and always gives a canonical list. */
  lemma FromMetadataTotal(metadata: Metadata)
    ensures FromMetadata(metadata).Ok? && Canonical(FromMetadata(metadata).value)
  {
    if CAPABILITIES_KEY in metadata {
      var parts := Split(metadata[CAPABILITIES_KEY], ',');
      SplitPartsFree(metadata[CAPABILITIES_KEY], ',');
      NonBlankPartsAcceptable(parts);
      CanonicalizeMeaning(NonBlankParts(parts));
    }
  }

  lemma CanonicalizeOfCanonical(capabilities: seq<string>)
    requires Canonical(capabilities)
    ensures Canonicalize(capabilities) == Ok(capabilities)
  {
    forall i | 0 <= i < |capabilities| ensures Acceptable(capabilities[i]) && Trim(capabilities[i]) == capabilities[i] {
      assert IsCapability(capabilities[i]);
      TrimOfTrimmed(capabilities[i]);
    }
    CanonicalizeMeaning(capabilities);
    assert TrimmedAll(capabilities) == Elems(capabilities) by {
      forall x ensures x in TrimmedAll(capabilities) <==> x in Elems(capabilities) {
        if x in Elems(capabilities) {
          var i :| 0 <= i < |capabilities| && capabilities[i] == x;
          assert Trim(capabilities[i]) == x;
        }
      }
    }
    AscendingUnique(Canonicalize(capabilities).value, capabilities);
  }

  /** Join on comma, split, trim, drop blanks and canonicalise: the identity on canonical lists.
      The metadata key is absent exactly when the list is empty. */
  lemma WireRoundTrip(metadata: Metadata, capabilities: seq<string>)
    requires Canonical(capabilities)
    ensures FromMetadata(Sync(metadata, capabilities)) == Ok(capabilities)
    ensures CAPABILITIES_KEY in Sync(metadata, capabilities) <==> capabilities != []
  {
    if capabilities != [] {
      assert FreeOf(capabilities, ',') by {
        forall i | 0 <= i < |capabilities| ensures ',' !in capabilities[i] {
          assert IsCapability(capabilities[i]);
        }
      }
      SplitOfJoin(capabilities, ',');
      forall p | p in capabilities ensures Clean(p) {
        assert IsCapability(p);
      }
      NonBlankPartsOfClean(capabilities);
      CanonicalizeOfCanonical(capabilities);
    }
  }

  /** A non-blank part of a list of names, trimmed, where commas separate parts as well. */
  predicate IsPart(names: seq<string>, x: string) {
    x != [] && exists i, p :: 0 <= i < |names| && p in Split(names[i], ',') && Trim(p) == x
  }

  lemma {:induction false} NonBlankPartsElems(parts: seq<string>, x: string)
    ensures x in NonBlankParts(parts) <==> x != [] && exists p :: p in parts && Trim(p) == x
  {
    if parts != [] {
      NonBlankPartsElems(parts[1..], x);
      assert forall p :: p in parts <==> p == parts[0] || p in parts[1..];
    }
  }

  lemma {:induction false} SplitOfConcat(s: string, rest: string)
    ensures Split(s + [','] + rest, ',') == Split(s, ',') + Split(rest, ',')
  {
    var all := s + [','] + rest;
    if s == [] {
      assert all[1..] == rest;
    } else {
      assert all[1..] == s[1..] + [','] + rest;
      SplitOfConcat(s[1..], rest);
    }
  }

  lemma {:induction false} PartsOfJoin(names: seq<string>, p: string)
    requires names != []
    ensures p in Split(Join(names, ','), ',') <==> exists i :: 0 <= i < |names| && p in Split(names[i], ',')
  {
    if |names| > 1 {
      SplitOfConcat(names[0], Join(names[1..], ','));
      PartsOfJoin(names[1..], p);
      assert forall i :: 0 < i < |names| ==> names[i] == names[1..][i - 1];
      if exists i :: 0 <= i < |names[1..]| && p in Split(names[1..][i], ',') {
        var i :| 0 <= i < |names[1..]| && p in Split(names[1..][i], ',');
        assert p in Split(names[i + 1], ',');
      }
    }
  }

  /** Whatever list is written to metadata, what is read back holds exactly its non-blank parts. */
  lemma WrittenPartsAreRead(metadata: Metadata, names: seq<string>, x: string)
    ensures FromMetadata(Sync(metadata, names)).Ok?
    ensures x in FromMetadata(Sync(metadata, names)).value <==> IsPart(names, x)
  {
    var m := Sync(metadata, names);
    FromMetadataTotal(m);
    if names != [] {
      var parts := Split(Join(names, ','), ',');
      var c := FromMetadata(m).value;
      NonBlankPartsElems(parts, x);
      CanonicalizeMeaning(NonBlankParts(parts));
      assert x in c <==> x in Elems(c);
      TrimmedParts(parts);
      assert x in TrimmedAll(NonBlankParts(parts)) <==> x in NonBlankParts(parts);
      forall p ensures p in parts <==> exists i :: 0 <= i < |names| && p in Split(names[i], ',') {
        PartsOfJoin(names, p);
      }
    }
  }

  lemma {:induction false} TrimmedParts(parts: seq<string>)
    ensures forall i :: 0 <= i < |NonBlankParts(parts)| ==> Trim(NonBlankParts(parts)[i]) == NonBlankParts(parts)[i]
  {
    if parts != [] {
      TrimmedParts(parts[1..]);
      TrimOfTrimmed(Trim(parts[0]));
    }
  }

  /** Two canonical lists with the same comma-separated form are the same list. */
  lemma JoinOfCanonicalInjective(a: seq<string>, b: seq<string>)
    requires Canonical(a) && Canonical(b)
    requires Join(a, ',') == Join(b, ',')
    ensures a == b
  {
    forall s: seq<string> | Canonical(s) ensures s != [] ==> FreeOf(s, ',') && Join(s, ',') != [] {
      if s != [] {
        assert IsCapability(s[0]);
        forall i | 0 <= i < |s| ensures ',' !in s[i] {
          assert IsCapability(s[i]);
        }
      }
    }
    if a != [] && b != [] {
      JoinInjective(a, b, ',');
    }
  }
}
