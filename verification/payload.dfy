/** The signed payload pins down what was signed, as long as nothing in it holds a newline and
    no metadata key holds an equals sign. */
module PayloadInjectivity {
  import opened Text
  import opened Ordering
  import opened Types
  import opened Signing
  import C = Capabilities

  /** Values that stay on one line of the payload; keys that end at the first equals sign. */
  predicate Printable(c: SignedContent) {
    && '\n' !in c.instanceName
    && '\n' !in c.agentId
    && '\n' !in c.role
    && '\n' !in c.project
    && '\n' !in c.branch
    && FreeOf(c.capabilities, '\n')
    && forall k :: k in c.metadata ==> '\n' !in k && '=' !in k && '\n' !in c.metadata[k]
  }

  lemma AfterPrefix(prefix: string, x: string, y: string)
    requires prefix + x == prefix + y
    ensures x == y
  {
    assert x == (prefix + x)[|prefix|..];
    assert y == (prefix + y)[|prefix|..];
  }

  lemma NoNewlineIn(prefix: string, x: string)
    requires '\n' !in prefix && '\n' !in x
    ensures '\n' !in prefix + x
  {
  }

  // ---------- single lines ----------

  /** Reads `key=value` apart at the first equals sign. */
  function KeyOf(entry: string): string {
    if entry == [] || entry[0] == '=' then [] else [entry[0]] + KeyOf(entry[1..])
  }

  lemma {:induction false} KeyOfEntry(k: string, v: string)
    requires '=' !in k
    ensures KeyOf(k + "=" + v) == k
  {
    var entry := k + "=" + v;
    if k != [] {
      assert entry[1..] == k[1..] + "=" + v;
      KeyOfEntry(k[1..], v);
      assert k == [k[0]] + k[1..];
    }
  }

  lemma LineInjective(k: string, v: string, k': string, v': string)
    requires '=' !in k && '=' !in k'
    requires Line(k, v) == Line(k', v')
    ensures k == k' && v == v'
  {
    assert Line(k, v) == "metadata:" + (k + "=" + v);
    assert Line(k', v') == "metadata:" + (k' + "=" + v');
    AfterPrefix("metadata:", k + "=" + v, k' + "=" + v');
    KeyOfEntry(k, v);
    KeyOfEntry(k', v');
    AfterPrefix(k + "=", v, v');
  }

  lemma LineHasNoNewline(k: string, v: string)
    requires '\n' !in k && '\n' !in v
    ensures '\n' !in Line(k, v)
  {
  }

  // ---------- the metadata lines ----------

  lemma {:induction false} LinesAreEntries(keys: seq<string>, m: Metadata)
    requires Elems(keys) <= m.Keys
    ensures forall l :: l in MetadataLines(keys, m) ==> exists k :: k in keys && !IsReservedKey(k) && l == Line(k, m[k])
    ensures forall k :: k in keys && !IsReservedKey(k) ==> Line(k, m[k]) in MetadataLines(keys, m)
  {
    if keys != [] {
      var first, rest := keys[0], keys[1..];
      assert first in Elems(keys);
      assert Elems(rest) <= Elems(keys);
      LinesAreEntries(rest, m);
      forall k | k in keys ensures k == first || k in rest {
      }
    }
  }

  lemma OpenLinesAreEntries(m: Metadata)
    requires forall k :: k in m ==> !IsReservedKey(k)
    ensures forall l :: l in MetadataLines(InOrder(m.Keys), m) ==> exists k :: k in m && l == Line(k, m[k])
    ensures forall k :: k in m ==> Line(k, m[k]) in MetadataLines(InOrder(m.Keys), m)
  {
    LinesAreEntries(InOrder(m.Keys), m);
    InOrderElems(m.Keys);
  }

  lemma MetadataLinesInjective(m: Metadata, m': Metadata)
    requires forall k :: k in m ==> !IsReservedKey(k) && '=' !in k
    requires forall k :: k in m' ==> !IsReservedKey(k) && '=' !in k
    requires MetadataLines(InOrder(m.Keys), m) == MetadataLines(InOrder(m'.Keys), m')
    ensures m == m'
  {
    EntriesCarryOver(m, m');
    EntriesCarryOver(m', m);
  }

  lemma EntriesCarryOver(m: Metadata, m': Metadata)
    requires forall k :: k in m ==> !IsReservedKey(k) && '=' !in k
    requires forall k :: k in m' ==> !IsReservedKey(k) && '=' !in k
    requires MetadataLines(InOrder(m.Keys), m) == MetadataLines(InOrder(m'.Keys), m')
    ensures forall k :: k in m ==> k in m' && m'[k] == m[k]
  {
    OpenLinesAreEntries(m);
    OpenLinesAreEntries(m');
    forall k | k in m ensures k in m' && m'[k] == m[k] {
      var k' :| k' in m' && Line(k, m[k]) == Line(k', m'[k']);
      LineInjective(k, m[k], k', m'[k']);
    }
  }

  // ---------- the payload ----------

  lemma FieldLinesFree(a: Announcement)
    requires Printable(Content(a))
    ensures FreeOf(FieldLines(a), '\n')
  {
    StatusRoundTrip(a.status);
    JoinFreeOf(a.capabilities, ',', '\n');
    DecimalDigits(a.port);
    NoNewlineIn("instance_name=", a.instanceName);
    NoNewlineIn("agent_id=", a.agentId);
    NoNewlineIn("role=", a.role);
    NoNewlineIn("project=", a.project);
    NoNewlineIn("branch=", a.branch);
    NoNewlineIn("status=", StatusText(a.status));
    NoNewlineIn("capabilities=", Join(a.capabilities, ','));
    NoNewlineIn("port=", Decimal(a.port));
  }

  lemma OpenLinesFree(m: Metadata)
    requires forall k :: k in m ==> !IsReservedKey(k) && '\n' !in k && '\n' !in m[k]
    ensures FreeOf(MetadataLines(InOrder(m.Keys), m), '\n')
  {
    OpenLinesAreEntries(m);
    var lines := MetadataLines(InOrder(m.Keys), m);
    forall i | 0 <= i < |lines| ensures '\n' !in lines[i] {
      assert lines[i] in lines;
      var k :| k in m && lines[i] == Line(k, m[k]);
      LineHasNoNewline(k, m[k]);
    }
  }

  lemma PayloadLinesFree(a: Announcement)
    requires Printable(Content(a))
    ensures FreeOf(PayloadLines(a), '\n')
  {
    FieldLinesFree(a);
    LinesAreOfContent(a.metadata);
    OpenLinesFree(OpenMetadata(a.metadata));
  }

  lemma FieldLinesInjective(a: Announcement, b: Announcement)
    requires C.Canonical(a.capabilities) && C.Canonical(b.capabilities)
    requires FieldLines(a) == FieldLines(b)
    ensures a.instanceName == b.instanceName && a.agentId == b.agentId && a.role == b.role
    ensures a.project == b.project && a.branch == b.branch && a.status == b.status
    ensures a.capabilities == b.capabilities && a.port == b.port
  {
    var la, lb := FieldLines(a), FieldLines(b);
    assert forall i :: 0 <= i < 8 ==> la[i] == lb[i];
    AfterPrefix("instance_name=", a.instanceName, b.instanceName);
    AfterPrefix("agent_id=", a.agentId, b.agentId);
    AfterPrefix("role=", a.role, b.role);
    AfterPrefix("project=", a.project, b.project);
    AfterPrefix("branch=", a.branch, b.branch);
    AfterPrefix("status=", StatusText(a.status), StatusText(b.status));
    AfterPrefix("capabilities=", Join(a.capabilities, ','), Join(b.capabilities, ','));
    AfterPrefix("port=", Decimal(a.port), Decimal(b.port));
    StatusRoundTrip(a.status);
    StatusRoundTrip(b.status);
    C.JoinOfCanonicalInjective(a.capabilities, b.capabilities);
    ReadOfDecimal(a.port);
    ReadOfDecimal(b.port);
  }

  /** For printable announcements with canonical capabilities, the payload is the same exactly
      when all signed content is: every typed field but the addresses, and all open metadata. */
  lemma PayloadIffContent(a: Announcement, b: Announcement)
    requires C.Canonical(a.capabilities) && C.Canonical(b.capabilities)
    requires Printable(Content(a)) && Printable(Content(b))
    ensures Payload(a) == Payload(b) <==> Content(a) == Content(b)
  {
    if Content(a) == Content(b) {
      ContentDeterminesPayload(a, b);
    }
    if Payload(a) == Payload(b) {
      PayloadLinesFree(a);
      PayloadLinesFree(b);
      JoinInjective(PayloadLines(a), PayloadLines(b), '\n');
      assert FieldLines(a) == PayloadLines(a)[..8] && FieldLines(b) == PayloadLines(b)[..8];
      FieldLinesInjective(a, b);
      MetadataOfEqualLines(a, b);
    }
  }

  lemma MetadataOfEqualLines(a: Announcement, b: Announcement)
    requires Printable(Content(a)) && Printable(Content(b))
    requires PayloadLines(a) == PayloadLines(b)
    ensures OpenMetadata(a.metadata) == OpenMetadata(b.metadata)
  {
    assert MetadataLines(InOrder(a.metadata.Keys), a.metadata) == PayloadLines(a)[8..];
    assert MetadataLines(InOrder(b.metadata.Keys), b.metadata) == PayloadLines(b)[8..];
    LinesAreOfContent(a.metadata);
    LinesAreOfContent(b.metadata);
    MetadataLinesInjective(OpenMetadata(a.metadata), OpenMetadata(b.metadata));
  }

  // ---------- one part of the payload among the others ----------

  lemma JoinAround(l: seq<string>, i: nat, j: nat)
    requires 0 < i < j < |l|
    ensures Join(l, '\n') == Join(l[..i], '\n') + "\n" + Join(l[i..j], '\n') + "\n" + Join(l[j..], '\n')
  {
    CutTwice(l, i, j);
    JoinOfThree(l[..i], l[i..j], l[j..]);
  }

  lemma CutTwice(l: seq<string>, i: nat, j: nat)
    requires i <= j <= |l|
    ensures l == l[..i] + (l[i..j] + l[j..])
  {
  }

  lemma JoinOfThree(x: seq<string>, y: seq<string>, z: seq<string>)
    requires x != [] && y != [] && z != []
    ensures Join(x + (y + z), '\n') == Join(x, '\n') + "\n" + Join(y, '\n') + "\n" + Join(z, '\n')
  {
    JoinOfConcat(x, y + z, '\n');
    JoinOfConcat(y, z, '\n');
    var a, b, c := Join(x, '\n'), Join(y, '\n'), Join(z, '\n');
    assert a + "\n" + (b + "\n" + c) == a + "\n" + b + "\n" + c;
  }

  lemma BetweenEqualEnds(front: string, x: string, y: string, back: string)
    requires front + x + back == front + y + back
    ensures x == y
  {
    assert front + x + back == front + (x + back) && front + y + back == front + (y + back);
    AfterPrefix(front, x + back, y + back);
    assert x == (x + back)[..|x|] && y == (y + back)[..|y|];
  }

  /** Announcements that differ in their status have different payloads, whatever characters the
      other fields hold. */
  lemma StatusShowsInPayload(a: Announcement, b: Announcement)
    requires Content(a.(status := b.status)) == Content(b) && a.status != b.status
    ensures Payload(a) != Payload(b)
  {
    var c := a.(status := b.status);
    ContentDeterminesPayload(c, b);
    JoinAround(PayloadLines(a), 5, 6);
    JoinAround(PayloadLines(c), 5, 6);
    assert PayloadLines(a)[..5] == PayloadLines(c)[..5] && PayloadLines(a)[6..] == PayloadLines(c)[6..];
    assert PayloadLines(a)[5..6] == ["status=" + StatusText(a.status)];
    assert PayloadLines(c)[5..6] == ["status=" + StatusText(c.status)];
    var front, back := Join(PayloadLines(a)[..5], '\n') + "\n", Join(PayloadLines(a)[6..], '\n');
    DifferentMiddles(front, a.status, b.status, back);
  }

  lemma DifferentMiddles(front: string, s: AgentStatus, t: AgentStatus, back: string)
    requires s != t
    ensures front + ("status=" + StatusText(s)) + "\n" + back != front + ("status=" + StatusText(t)) + "\n" + back
  {
    var x, y := "status=" + StatusText(s), "status=" + StatusText(t);
    assert front + x + "\n" + back == front + x + ("\n" + back);
    assert front + y + "\n" + back == front + y + ("\n" + back);
    if front + x + ("\n" + back) == front + y + ("\n" + back) {
      BetweenEqualEnds(front, x, y, "\n" + back);
      AfterPrefix("status=", StatusText(s), StatusText(t));
      StatusRoundTrip(s);
      StatusRoundTrip(t);
    }
  }
}
