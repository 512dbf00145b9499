/** What happens to the signed payload at its borders: a newline in a field can move the border
    between two lines, an equals sign in a metadata key the border between key and value. */
module PayloadBorders {
  import opened Text
  import opened Ordering
  import opened Types
  import opened Announcements
  import opened Signing
  import opened PayloadInjectivity
  import C = Capabilities

  // ---------- the border between role and project ----------

  const PROJECT_LABEL := "\nproject="

  /** The payload from the role to the project. */
  function Seam(role: string, project: string): string {
    role + PROJECT_LABEL + project
  }

  function WithRoleProject(a: Announcement, role: string, project: string): Announcement {
    a.(role := role, project := project)
  }

  lemma PayloadAroundSeam(a: Announcement, x: string, p: string)
    ensures Payload(WithRoleProject(a, x, p))
            == (Join(PayloadLines(a)[..2], '\n') + "\n" + "role=") + Seam(x, p)
               + ("\n" + Join(PayloadLines(a)[4..], '\n'))
  {
    var b := WithRoleProject(a, x, p);
    JoinAround(PayloadLines(b), 2, 4);
    assert PayloadLines(b)[..2] == PayloadLines(a)[..2] && PayloadLines(b)[4..] == PayloadLines(a)[4..];
    assert PayloadLines(b)[2..4] == ["role=" + x, "project=" + p];
    JoinedSeam(Join(PayloadLines(a)[..2], '\n'), x, p, Join(PayloadLines(a)[4..], '\n'));
  }

  lemma JoinedSeam(front: string, x: string, p: string, back: string)
    ensures front + "\n" + Join(["role=" + x, "project=" + p], '\n') + "\n" + back
            == (front + "\n" + "role=") + Seam(x, p) + ("\n" + back)
  {
    assert ["role=" + x, "project=" + p][1..] == ["project=" + p];
    assert Join(["role=" + x, "project=" + p], '\n') == "role=" + Seam(x, p);
    assert front + "\n" + ("role=" + Seam(x, p)) == front + "\n" + "role=" + Seam(x, p);
    assert front + "\n" + "role=" + Seam(x, p) + "\n" + back == front + "\n" + "role=" + Seam(x, p) + ("\n" + back);
  }

  /** Roles and projects give the same payload exactly when they give the same seam. */
  lemma SamePayloadIffSameSeam(a: Announcement, x: string, p: string, y: string, q: string)
    ensures Payload(WithRoleProject(a, x, p)) == Payload(WithRoleProject(a, y, q)) <==> Seam(x, p) == Seam(y, q)
  {
    PayloadAroundSeam(a, x, p);
    PayloadAroundSeam(a, y, q);
    var front, back := Join(PayloadLines(a)[..2], '\n') + "\n" + "role=", "\n" + Join(PayloadLines(a)[4..], '\n');
    if front + Seam(x, p) + back == front + Seam(y, q) + back {
      BetweenEqualEnds(front, Seam(x, p), Seam(y, q), back);
    }
  }

  /** The label of the project line stands somewhere else in role or project too, with acceptable
      fields on both sides. */
  predicate SplitsElsewhere(role: string, project: string, i: nat) {
    && i != |role| && At(Seam(role, project), PROJECT_LABEL, i)
    && Clean(Seam(role, project)[..i]) && Clean(Seam(role, project)[i + |PROJECT_LABEL|..])
  }

  /** Another well-formed announcement with other role and project and the same payload. */
  predicate SharesPayload(a: Announcement, x: string, p: string) {
    && WellFormed(WithRoleProject(a, x, p))
    && Content(WithRoleProject(a, x, p)) != Content(a)
    && Payload(WithRoleProject(a, x, p)) == Payload(a)
  }

  lemma SeamSplit(x: string, p: string, y: string, q: string)
    requires Seam(x, p) == Seam(y, q) && Clean(y) && Clean(q) && (x != y || p != q)
    ensures SplitsElsewhere(x, p, |y|)
  {
    var seam := Seam(y, q);
    assert seam[..|y|] == y && seam[|y| + |PROJECT_LABEL|..] == q;
    assert seam[|y|..|y| + |PROJECT_LABEL|] == PROJECT_LABEL;
    if |x| == |y| {
      SamePlaceSamePieces(x, p, y, q);
    }
  }

  lemma SamePlaceSamePieces(x: string, p: string, y: string, q: string)
    requires Seam(x, p) == Seam(y, q) && |x| == |y|
    ensures x == y && p == q
  {
    assert x == Seam(x, p)[..|x|] && p == Seam(x, p)[|x| + |PROJECT_LABEL|..];
    assert y == Seam(y, q)[..|y|] && q == Seam(y, q)[|y| + |PROJECT_LABEL|..];
  }

  lemma SplitSeam(x: string, p: string, i: nat)
    requires SplitsElsewhere(x, p, i)
    ensures var y, q := Seam(x, p)[..i], Seam(x, p)[i + |PROJECT_LABEL|..];
            Seam(y, q) == Seam(x, p) && |y| != |x|
  {
    var seam := Seam(x, p);
    assert seam == seam[..i] + seam[i..i + |PROJECT_LABEL|] + seam[i + |PROJECT_LABEL|..];
  }

  lemma SharedPayloadSplits(a: Announcement, x: string, p: string)
    requires WellFormed(a) && SharesPayload(a, x, p)
    ensures SplitsElsewhere(a.role, a.project, |x|)
  {
    assert WithRoleProject(a, a.role, a.project) == a;
    SamePayloadIffSameSeam(a, a.role, a.project, x, p);
    SeamSplit(a.role, a.project, x, p);
  }

  lemma RoleProjectKeepForm(a: Announcement, x: string, p: string)
    requires WellFormed(a) && Clean(x) && Clean(p)
    ensures WellFormed(WithRoleProject(a, x, p))
  {
  }

  lemma SplitSharesPayload(a: Announcement, i: nat)
    requires WellFormed(a) && SplitsElsewhere(a.role, a.project, i)
    ensures SharesPayload(a, Seam(a.role, a.project)[..i], Seam(a.role, a.project)[i + |PROJECT_LABEL|..])
  {
    var x, p := Seam(a.role, a.project)[..i], Seam(a.role, a.project)[i + |PROJECT_LABEL|..];
    assert WithRoleProject(a, a.role, a.project) == a;
    SplitSeam(a.role, a.project, i);
    SamePayloadIffSameSeam(a, a.role, a.project, x, p);
    RoleProjectKeepForm(a, x, p);
  }

  /** Another role and project share the payload of a well-formed announcement exactly if its role
      or project can be split at the label of the project line. */
  lemma RoleProjectBorderIff(a: Announcement)
    requires WellFormed(a)
    ensures (exists x, p :: SharesPayload(a, x, p)) <==> (exists i: nat :: SplitsElsewhere(a.role, a.project, i))
  {
    forall x, p | SharesPayload(a, x, p) ensures SplitsElsewhere(a.role, a.project, |x|) {
      SharedPayloadSplits(a, x, p);
    }
    if exists i: nat :: SplitsElsewhere(a.role, a.project, i) {
      var i: nat :| SplitsElsewhere(a.role, a.project, i);
      SplitSharesPayload(a, i);
    }
  }

  /** With acceptable pieces the border does move: two well-formed announcements with different
      content and one payload. */
  lemma NewlineCollision(a: Announcement, x: string, y: string, z: string)
    requires WellFormed(a) && Clean(x) && Clean(y) && Clean(z)
    ensures var left := WithRoleProject(a, x, y + PROJECT_LABEL + z);
            var right := WithRoleProject(a, x + PROJECT_LABEL + y, z);
            && WellFormed(left) && WellFormed(right)
            && Content(left) != Content(right) && Payload(left) == Payload(right)
  {
    assert x + PROJECT_LABEL + (y + PROJECT_LABEL + z) == (x + PROJECT_LABEL + y) + PROJECT_LABEL + z;
    SamePayloadIffSameSeam(a, x, y + PROJECT_LABEL + z, x + PROJECT_LABEL + y, z);
    assert |x| != |x + PROJECT_LABEL + y|;
  }

  // ---------- the border between a metadata key and its value ----------

  function Below(keys: set<string>, k: string): set<string> {
    set j | j in keys && Less(j, k)
  }

  function Above(keys: set<string>, k: string): set<string> {
    set j | j in keys && Less(k, j)
  }

  lemma {:induction false} ConcatAscending(a: seq<string>, b: seq<string>)
    requires Ascending(a) && Ascending(b)
    requires forall i, j :: 0 <= i < |a| && 0 <= j < |b| ==> Less(a[i], b[j])
    ensures Ascending(a + b)
  {
  }

  /** In the order of the keys, a new key stands behind the smaller and before the greater ones. */
  lemma InOrderAround(keys: set<string>, k: string)
    requires k !in keys
    ensures InOrder(keys + {k}) == InOrder(Below(keys, k)) + ([k] + InOrder(Above(keys, k)))
  {
    var below, above := InOrder(Below(keys, k)), InOrder(Above(keys, k));
    InOrderAscending(Below(keys, k));
    InOrderAscending(Above(keys, k));
    InOrderAscending(keys + {k});
    forall j | 0 <= j < |above| ensures Less(k, above[j]) {
      assert above[j] in Elems(above);
    }
    PrependAscending(k, above);
    var tail := [k] + above;
    forall i, j | 0 <= i < |below| && 0 <= j < |tail| ensures Less(below[i], tail[j]) {
      assert below[i] in Elems(below);
      if j > 0 {
        LessTransitive(below[i], k, tail[j]);
      }
    }
    ConcatAscending(below, tail);
    forall j | j in keys ensures j in Below(keys, k) || j in Above(keys, k) {
      LessTotal(j, k);
    }
    ElemsOfConcat(below, tail);
    ElemsOfConcat([k], above);
    assert Elems(below + tail) == keys + {k};
    AscendingUnique(InOrder(keys + {k}), below + tail);
  }

  lemma {:induction false} LinesOfConcat(a: seq<string>, b: seq<string>, m: Metadata)
    requires Elems(a) <= m.Keys && Elems(b) <= m.Keys
    ensures Elems(a + b) <= m.Keys
    ensures MetadataLines(a + b, m) == MetadataLines(a, m) + MetadataLines(b, m)
  {
    ElemsOfConcat(a, b);
    if a == [] {
      assert a + b == b;
    } else {
      assert a[0] in Elems(a);
      assert Elems(a[1..]) <= Elems(a);
      assert (a + b)[1..] == a[1..] + b;
      LinesOfConcat(a[1..], b, m);
    }
  }

  /** One line for each key, in order; open keys only. */
  lemma {:induction false} LinesAt(keys: seq<string>, m: Metadata)
    requires Elems(keys) <= m.Keys && forall k :: k in m ==> !IsReservedKey(k)
    ensures |MetadataLines(keys, m)| == |keys|
    ensures forall i :: 0 <= i < |keys| ==> keys[i] in m && MetadataLines(keys, m)[i] == Line(keys[i], m[keys[i]])
  {
    if keys != [] {
      assert keys[0] in Elems(keys);
      assert Elems(keys[1..]) <= Elems(keys);
      LinesAt(keys[1..], m);
    }
  }

  predicate AllOpen(m: Metadata) {
    forall k :: k in m ==> !IsReservedKey(k)
  }

  /** The lines of the entries under some of the keys. */
  function LinesUnder(keys: set<string>, m: Metadata): seq<string>
    requires keys <= m.Keys
  {
    MetadataLines(InOrder(keys), m)
  }

  lemma SameLines(keys: set<string>, m: Metadata, n: Metadata)
    requires keys <= m.Keys && keys <= n.Keys && AllOpen(m) && AllOpen(n)
    requires forall k :: k in keys ==> m[k] == n[k]
    ensures LinesUnder(keys, m) == LinesUnder(keys, n)
  {
    LinesAt(InOrder(keys), m);
    LinesAt(InOrder(keys), n);
    forall i | 0 <= i < |InOrder(keys)| ensures LinesUnder(keys, m)[i] == LinesUnder(keys, n)[i] {
      assert InOrder(keys)[i] in Elems(InOrder(keys));
    }
  }

  /** The lines with one more entry. */
  lemma LinesWithEntry(m: Metadata, k: string, v: string)
    requires AllOpen(m) && !IsReservedKey(k) && k !in m
    ensures LinesUnder(m.Keys + {k}, m[k := v])
            == LinesUnder(Below(m.Keys, k), m) + ([Line(k, v)] + LinesUnder(Above(m.Keys, k), m))
  {
    var n := m[k := v];
    var below, above := Below(m.Keys, k), Above(m.Keys, k);
    InOrderAround(m.Keys, k);
    LinesOfConcat([k], InOrder(above), n);
    LinesOfConcat(InOrder(below), [k] + InOrder(above), n);
    LinesAt([k], n);
    SameLines(below, m, n);
    SameLines(above, m, n);
  }

  predicate NoneBetween(keys: set<string>, k: string, l: string) {
    forall j :: j in keys ==> !(Less(k, j) && Less(j, l))
  }

  lemma SameNeighbours(keys: set<string>, k: string, l: string)
    requires Less(k, l) && k !in keys && l !in keys && NoneBetween(keys, k, l)
    ensures Below(keys, k) == Below(keys, l) && Above(keys, k) == Above(keys, l)
  {
    forall j | j in keys
      ensures Less(j, k) <==> Less(j, l)
      ensures Less(k, j) <==> Less(l, j)
    {
      LessTotal(j, k);
      LessTotal(j, l);
      if Less(j, k) {
        LessTransitive(j, k, l);
        if Less(k, j) {
          LessTransitive(k, j, k);
          LessIrreflexive(k);
        }
        if Less(l, j) {
          LessTransitive(l, j, l);
          LessIrreflexive(l);
        }
      } else {
        if Less(j, l) {
          assert false;
        }
        LessTransitive(k, l, j);
      }
    }
  }

  function WithEntry(a: Announcement, k: string, v: string): Announcement {
    a.(metadata := a.metadata[k := v])
  }

  /** Two keys for which the border between key and value can move. */
  predicate BorderKeys(a: Announcement, k: string, w: string) {
    && !Blank(k)
    && !IsReservedKey(k) && !IsReservedKey(k + "=" + w)
    && k !in a.metadata && k + "=" + w !in a.metadata
  }

  lemma LongerKey(k: string, w: string)
    ensures Less(k, k + "=" + w)
    ensures !Blank(k) ==> !Blank(k + "=" + w)
  {
    var l := k + "=" + w;
    assert l[..|k|] == k;
    ExtensionIsGreater(k, l);
    BlankIsAllSpace(k);
    BlankIsAllSpace(l);
    if AllSpace(l) {
      forall i | 0 <= i < |k| ensures IsSpace(k[i]) {
        assert l[i] == k[i];
      }
    }
  }

  lemma EntryKeepsForm(a: Announcement, k: string, v: string)
    requires WellFormed(a) && !Blank(k) && !IsReservedKey(k)
    ensures WellFormed(WithEntry(a, k, v))
    ensures OpenMetadata(WithEntry(a, k, v).metadata) == OpenMetadata(a.metadata)[k := v]
  {
    EntryKeepsStep(a.metadata, a.capabilities, k, v);
    OpenEntry(a.metadata, k, v);
    EntryKeepsKeysVisible(a.metadata, k, v);
  }

  lemma EntryKeepsKeysVisible(metadata: Metadata, k: string, v: string)
    requires !HasBlankKey(metadata) && !Blank(k)
    ensures !HasBlankKey(metadata[k := v])
  {
  }

  lemma EntryKeepsStep(metadata: Metadata, capabilities: seq<string>, k: string, v: string)
    requires C.InStep(metadata, capabilities) && !IsReservedKey(k)
    ensures C.InStep(metadata[k := v], capabilities)
  {
    assert IsReservedKey(CAPABILITIES_KEY);
  }

  lemma OpenEntry(metadata: Metadata, k: string, v: string)
    requires !IsReservedKey(k)
    ensures OpenMetadata(metadata[k := v]) == OpenMetadata(metadata)[k := v]
  {
  }

  /** The payload of an announcement with one more open entry. */
  lemma PayloadWithEntry(a: Announcement, k: string, v: string)
    requires WellFormed(a) && !Blank(k) && !IsReservedKey(k) && k !in a.metadata
    ensures var m := OpenMetadata(a.metadata);
            PayloadLines(WithEntry(a, k, v))
            == FieldLines(a) + (LinesUnder(Below(m.Keys, k), m) + ([Line(k, v)] + LinesUnder(Above(m.Keys, k), m)))
  {
    var b, m := WithEntry(a, k, v), OpenMetadata(a.metadata);
    EntryKeepsForm(a, k, v);
    LinesAreOfContent(b.metadata);
    assert OpenMetadata(b.metadata).Keys == m.Keys + {k};
    LinesWithEntry(m, k, v);
  }

  lemma SameLine(k: string, w: string, v: string)
    ensures Line(k + "=" + w, v) == Line(k, w + "=" + v)
  {
  }

  /** An equals sign in a metadata key moves the border between key and value, as long as no other
      open key sorts between the two keys: two well-formed announcements with different content
      and one payload. */
  lemma EqualsSignCollision(a: Announcement, k: string, w: string, v: string)
    requires WellFormed(a) && BorderKeys(a, k, w)
    requires NoneBetween(OpenMetadata(a.metadata).Keys, k, k + "=" + w)
    ensures var left, right := WithEntry(a, k + "=" + w, v), WithEntry(a, k, w + "=" + v);
            && WellFormed(left) && WellFormed(right)
            && Content(left) != Content(right) && Payload(left) == Payload(right)
  {
    var m, l := OpenMetadata(a.metadata), k + "=" + w;
    LongerKey(k, w);
    EntryKeepsForm(a, l, v);
    EntryKeepsForm(a, k, w + "=" + v);
    PayloadWithEntry(a, l, v);
    PayloadWithEntry(a, k, w + "=" + v);
    SameNeighbours(m.Keys, k, l);
    SameLine(k, w, v);
    assert k in OpenMetadata(WithEntry(a, k, w + "=" + v).metadata);
    assert k !in OpenMetadata(WithEntry(a, l, v).metadata);
  }

  lemma OrderLength(keys: set<string>)
    ensures |InOrder(keys)| == |keys|
  {
    InOrderAscending(keys);
    DistinctLength(InOrder(keys));
  }

  lemma {:induction false} DistinctLength(s: seq<string>)
    requires Ascending(s)
    ensures |Elems(s)| == |s|
  {
    if s != [] {
      AscendingHead(s);
      DistinctLength(s[1..]);
      assert s[0] in Elems(s);
      assert |Elems(s)| == |Elems(s) - {s[0]}| + 1;
    }
  }

  /** Where the line of the shorter key stands, the other list has the line of another key. */
  lemma KeyBetweenShows(m: Metadata, k: string, w: string, v: string, j: string)
    requires AllOpen(m) && '=' !in k && k !in m && forall i :: i in m ==> '=' !in i
    requires j in m && Less(k, j) && Less(j, k + "=" + w)
    ensures LinesUnder(Below(m.Keys, k + "=" + w), m) + ([Line(k + "=" + w, v)] + LinesUnder(Above(m.Keys, k + "=" + w), m))
            != LinesUnder(Below(m.Keys, k), m) + ([Line(k, w + "=" + v)] + LinesUnder(Above(m.Keys, k), m))
  {
    var l := k + "=" + w;
    var few, more := Below(m.Keys, k), Below(m.Keys, l);
    MoreBelow(m.Keys, k, l, j);
    LinesAt(InOrder(few), m);
    LinesAt(InOrder(more), m);
    OrderLength(few);
    OrderLength(more);
    var n := |few|;
    var other := InOrder(more)[n];
    assert other in Elems(InOrder(more));
    if Line(other, m[other]) == Line(k, w + "=" + v) {
      LineInjective(other, m[other], k, w + "=" + v);
    }
    assert (LinesUnder(few, m) + ([Line(k, w + "=" + v)] + LinesUnder(Above(m.Keys, k), m)))[n] == Line(k, w + "=" + v);
  }

  lemma MoreBelow(keys: set<string>, k: string, l: string, j: string)
    requires j in keys && Less(k, j) && Less(j, l)
    ensures |Below(keys, k)| < |Below(keys, l)|
  {
    LessTransitive(k, j, l);
    forall i | i in Below(keys, k) ensures i in Below(keys, l) {
      LessTransitive(i, k, l);
    }
    LessIrreflexive(j);
    if Less(j, k) {
      LessTransitive(j, k, j);
    }
    assert j in Below(keys, l) && j !in Below(keys, k);
    SmallerSet(Below(keys, k), Below(keys, l));
  }

  lemma {:induction false} SmallerSet(a: set<string>, b: set<string>)
    requires a < b
    ensures |a| < |b|
  {
    assert b == a + (b - a);
    assert b - a != {};
  }

  /** For announcements that are printable otherwise, the border between a key without equals sign and
      its value moves exactly if no other open key sorts between the two keys. */
  lemma EqualsSignCollidesIff(a: Announcement, k: string, w: string, v: string)
    requires WellFormed(a) && BorderKeys(a, k, w) && Printable(Content(a))
    requires '=' !in k && '\n' !in k && '\n' !in w && '\n' !in v
    ensures Payload(WithEntry(a, k + "=" + w, v)) == Payload(WithEntry(a, k, w + "=" + v))
            <==> NoneBetween(OpenMetadata(a.metadata).Keys, k, k + "=" + w)
  {
    var m, l := OpenMetadata(a.metadata), k + "=" + w;
    if NoneBetween(m.Keys, k, l) {
      EqualsSignCollision(a, k, w, v);
    } else {
      var j :| j in m.Keys && Less(k, j) && Less(j, l);
      LongerKey(k, w);
      EntryLinesFree(a, l, v);
      EntryLinesFree(a, k, w + "=" + v);
      KeyBetweenShows(m, k, w, v, j);
      PayloadWithEntry(a, l, v);
      PayloadWithEntry(a, k, w + "=" + v);
      DifferentJoins(FieldLines(a),
                     LinesUnder(Below(m.Keys, l), m) + ([Line(l, v)] + LinesUnder(Above(m.Keys, l), m)),
                     LinesUnder(Below(m.Keys, k), m) + ([Line(k, w + "=" + v)] + LinesUnder(Above(m.Keys, k), m)));
    }
  }

  lemma SameTails(front: seq<string>, x: seq<string>, y: seq<string>)
    requires front + x == front + y
    ensures x == y
  {
    assert x == (front + x)[|front|..] && y == (front + y)[|front|..];
  }

  predicate LinesStayApart(m: Metadata) {
    forall k :: k in m ==> !IsReservedKey(k) && '\n' !in k && '\n' !in m[k]
  }

  lemma EntryStaysApart(m: Metadata, k: string, v: string)
    requires LinesStayApart(m) && !IsReservedKey(k) && '\n' !in k && '\n' !in v
    ensures LinesStayApart(m[k := v])
  {
  }

  lemma EntryLinesFree(a: Announcement, k: string, v: string)
    requires WellFormed(a) && !Blank(k) && !IsReservedKey(k) && Printable(Content(a))
    requires '\n' !in k && '\n' !in v
    ensures FreeOf(PayloadLines(WithEntry(a, k, v)), '\n')
  {
    var b := WithEntry(a, k, v);
    assert FieldLines(b) == FieldLines(a);
    FieldLinesFree(a);
    assert LinesStayApart(OpenMetadata(a.metadata));
    EntryStaysApart(OpenMetadata(a.metadata), k, v);
    OpenEntry(a.metadata, k, v);
    OpenLinesFree(OpenMetadata(b.metadata));
    LinesAreOfContent(b.metadata);
  }

  // ---------- the border between two metadata entries ----------

  /** The value that takes the line of another entry in. */
  function Swallowing(v: string, l: string, w: string): string {
    v + "\n" + Line(l, w)
  }

  lemma SwallowedLine(k: string, v: string, l: string, w: string)
    ensures Line(k, Swallowing(v, l, w)) == Line(k, v) + "\n" + Line(l, w)
  {
    assert "metadata:" + k + "=" + (v + "\n" + Line(l, w)) == "metadata:" + k + "=" + v + "\n" + Line(l, w);
  }

  /** Two lines join to the same text as one line that holds both. */
  lemma JoinMerges(front: seq<string>, x: string, y: string, back: seq<string>)
    requires front != []
    ensures Join(front + ([x] + ([y] + back)), '\n') == Join(front + ([x + "\n" + y] + back), '\n')
  {
    JoinOfConcat(front, [x] + ([y] + back), '\n');
    JoinOfConcat(front, [x + "\n" + y] + back, '\n');
    var two, one := [x] + ([y] + back), [x + "\n" + y] + back;
    assert two[1..] == [y] + back && one[1..] == back;
    if back == [] {
      assert [y] + back == [y] && one == [x + "\n" + y];
    } else {
      assert ([y] + back)[1..] == back;
      assert x + "\n" + (y + "\n" + Join(back, '\n')) == x + "\n" + y + "\n" + Join(back, '\n');
    }
  }

  /** Two open keys that are free, in their order. */
  predicate FreePair(a: Announcement, k: string, l: string) {
    && !Blank(k) && !Blank(l) && !IsReservedKey(k) && !IsReservedKey(l)
    && k !in a.metadata && l !in a.metadata && Less(k, l)
  }

  function WithBoth(a: Announcement, k: string, v: string, l: string, w: string): Announcement {
    WithEntry(WithEntry(a, k, v), l, w)
  }

  /** The lines of an announcement with the second entry, which stand around those of the first. */
  lemma BothLines(a: Announcement, k: string, v: string, l: string, w: string)
    requires WellFormed(a) && FreePair(a, k, l)
    ensures var m := OpenMetadata(a.metadata)[k := v];
            && WellFormed(WithBoth(a, k, v, l, w))
            && k in Below(m.Keys, l)
            && PayloadLines(WithBoth(a, k, v, l, w))
               == FieldLines(a) + (LinesUnder(Below(m.Keys, l), m) + ([Line(l, w)] + LinesUnder(Above(m.Keys, l), m)))
  {
    EntryKeepsForm(a, k, v);
    EntryKeepsForm(WithEntry(a, k, v), l, w);
    LessIrreflexive(k);
    PayloadWithEntry(WithEntry(a, k, v), l, w);
    assert FieldLines(WithEntry(a, k, v)) == FieldLines(a);
  }

  /** With nothing between them, the two lines are neighbours. */
  lemma NeighbourLines(m: Metadata, k: string, v: string, l: string)
    requires AllOpen(m) && !IsReservedKey(k) && !IsReservedKey(l) && k !in m && l !in m && Less(k, l)
    requires NoneBetween(m.Keys, k, l)
    ensures var n := m[k := v];
            && LinesUnder(Below(n.Keys, l), n) == LinesUnder(Below(m.Keys, k), m) + [Line(k, v)]
            && LinesUnder(Above(n.Keys, l), n) == LinesUnder(Above(m.Keys, k), m)
  {
    var n, below, above := m[k := v], Below(m.Keys, k), Above(m.Keys, k);
    SameNeighbours(m.Keys, k, l);
    NotAbove(k, l);
    LessIrreflexive(k);
    assert Below(n.Keys, l) == below + {k};
    assert Above(n.Keys, l) == above;
    SameLines(above, m, n);
    SameLines(below, m, n);
    InOrderAround(below, k);
    assert Below(below, k) == below;
    NoneAboveOfBelow(m.Keys, k);
    assert InOrder({}) == [];
    assert [k] + [] == [k];
    LinesOfConcat(InOrder(below), [k], n);
    LinesAt([k], n);
  }

  lemma NotAbove(k: string, l: string)
    requires Less(k, l)
    ensures !Less(l, k)
  {
    if Less(l, k) {
      LessTransitive(k, l, k);
      LessIrreflexive(k);
    }
  }

  lemma NoneAboveOfBelow(keys: set<string>, k: string)
    ensures Above(Below(keys, k), k) == {}
  {
    forall j | j in Below(keys, k) ensures !Less(k, j) {
      NotAbove(j, k);
    }
  }

  /** A newline in a metadata value moves the border between two entries, as long as no other open key sorts
      between them: two well-formed announcements, one with both entries and one whose value holds the line
      of the other, have different content and one payload. */
  lemma ValueNewlineCollision(a: Announcement, k: string, v: string, l: string, w: string)
    requires WellFormed(a) && FreePair(a, k, l) && NoneBetween(OpenMetadata(a.metadata).Keys, k, l)
    ensures var two, one := WithBoth(a, k, v, l, w), WithEntry(a, k, Swallowing(v, l, w));
            && WellFormed(two) && WellFormed(one)
            && Content(two) != Content(one) && Payload(two) == Payload(one)
  {
    var two, one := WithBoth(a, k, v, l, w), WithEntry(a, k, Swallowing(v, l, w));
    var m := OpenMetadata(a.metadata);
    EntryKeepsForm(a, k, Swallowing(v, l, w));
    BothLines(a, k, v, l, w);
    NeighbourLines(m, k, v, l);
    OneAsTwoLines(a, k, v, l, w);
    SameGroups(LinesUnder(Below(m.Keys, k), m), [Line(k, v)], [Line(l, w)] + LinesUnder(Above(m.Keys, k), m));
    BothContent(a, k, v, l, w);
  }

  lemma BothContent(a: Announcement, k: string, v: string, l: string, w: string)
    requires WellFormed(a) && FreePair(a, k, l)
    ensures Content(WithBoth(a, k, v, l, w)) != Content(WithEntry(a, k, Swallowing(v, l, w)))
  {
    LessIrreflexive(k);
    assert l in OpenMetadata(WithBoth(a, k, v, l, w).metadata);
    assert l !in OpenMetadata(WithEntry(a, k, Swallowing(v, l, w)).metadata);
  }

  lemma MergedPayload(fields: seq<string>, below: seq<string>, x: string, y: string, above: seq<string>)
    requires fields != []
    ensures Join(fields + (below + ([x] + ([y] + above))), '\n')
            == Join(fields + (below + ([x + "\n" + y] + above)), '\n')
  {
    JoinMerges(fields + below, x, y, above);
    SameGroups(fields, below, [x] + ([y] + above));
    SameGroups(fields, below, [x + "\n" + y] + above);
  }

  lemma SameGroups<T>(x: seq<T>, y: seq<T>, z: seq<T>)
    ensures x + (y + z) == x + y + z
  {
  }

  /** The line behind the shorter key's: of another key, where some key sorts in between. */
  lemma KeyBetweenParts(m: Metadata, k: string, v: string, l: string, w: string, j: string)
    requires AllOpen(m) && '=' !in k && '=' !in l && forall i :: i in m ==> '=' !in i
    requires !IsReservedKey(k) && k !in m && l !in m && Less(k, l)
    requires j in m && Less(k, j) && Less(j, l)
    ensures var n := m[k := v];
            LinesUnder(Below(n.Keys, l), n) + ([Line(l, w)] + LinesUnder(Above(n.Keys, l), n))
            != LinesUnder(Below(m.Keys, k), m) + ([Line(k, v)] + ([Line(l, w)] + LinesUnder(Above(m.Keys, k), m)))
  {
    var n := m[k := v];
    var few, more := Below(m.Keys, k), Below(n.Keys, l);
    BelowBoth(m.Keys, k, l, j);
    assert n.Keys == m.Keys + {k};
    LinesAt(InOrder(few), m);
    LinesAt(InOrder(more), n);
    OrderLength(few);
    OrderLength(more);
    LessIrreflexive(k);
    OtherLine(more, n, l, w, |few| + 1);
    var right := LinesUnder(few, m) + ([Line(k, v)] + ([Line(l, w)] + LinesUnder(Above(m.Keys, k), m)));
    assert right[|few| + 1] == Line(l, w);
  }

  /** No line of other keys is the line of l. */
  lemma OtherLine(keys: set<string>, m: Metadata, l: string, w: string, i: nat)
    requires AllOpen(m) && keys <= m.Keys && i < |InOrder(keys)|
    requires '=' !in l && l !in keys && forall k :: k in m ==> '=' !in k
    ensures i < |LinesUnder(keys, m)| && LinesUnder(keys, m)[i] != Line(l, w)
  {
    LinesAt(InOrder(keys), m);
    var other := InOrder(keys)[i];
    assert other in Elems(InOrder(keys));
    if Line(other, m[other]) == Line(l, w) {
      LineInjective(other, m[other], l, w);
    }
  }

  lemma BelowBoth(keys: set<string>, k: string, l: string, j: string)
    requires k !in keys && l !in keys && Less(k, l) && j in keys && Less(k, j) && Less(j, l)
    ensures |Below(keys, k)| + 1 < |Below(keys + {k}, l)| && l !in Below(keys + {k}, l)
  {
    MoreBelow(keys, k, l, j);
    LessIrreflexive(l);
    LessIrreflexive(k);
    assert Below(keys + {k}, l) == Below(keys, l) + {k};
  }

  /** For announcements that are printable otherwise, the border between the two entries moves exactly if no
      other open key sorts between them. */
  lemma ValueNewlineCollidesIff(a: Announcement, k: string, v: string, l: string, w: string)
    requires WellFormed(a) && FreePair(a, k, l) && Printable(Content(a))
    requires '=' !in k && '=' !in l && '\n' !in k && '\n' !in l && '\n' !in v && '\n' !in w
    ensures Payload(WithBoth(a, k, v, l, w)) == Payload(WithEntry(a, k, Swallowing(v, l, w)))
            <==> NoneBetween(OpenMetadata(a.metadata).Keys, k, l)
  {
    var m := OpenMetadata(a.metadata);
    if NoneBetween(m.Keys, k, l) {
      ValueNewlineCollision(a, k, v, l, w);
    } else {
      var j :| j in m.Keys && Less(k, j) && Less(j, l);
      KeyBetweenKeepsApart(a, k, v, l, w, j);
    }
  }

  lemma KeyBetweenKeepsApart(a: Announcement, k: string, v: string, l: string, w: string, j: string)
    requires WellFormed(a) && FreePair(a, k, l) && Printable(Content(a))
    requires '=' !in k && '=' !in l && '\n' !in k && '\n' !in l && '\n' !in v && '\n' !in w
    requires j in OpenMetadata(a.metadata) && Less(k, j) && Less(j, l)
    ensures Payload(WithBoth(a, k, v, l, w)) != Payload(WithEntry(a, k, Swallowing(v, l, w)))
  {
    var m := OpenMetadata(a.metadata);
    var n := m[k := v];
    BothLines(a, k, v, l, w);
    OneAsTwoLines(a, k, v, l, w);
    KeyBetweenParts(m, k, v, l, w, j);
    BothLinesFree(a, k, v, l, w);
    OneLinesFree(a, k, v, l, w);
    DifferentJoins(FieldLines(a),
                   LinesUnder(Below(n.Keys, l), n) + ([Line(l, w)] + LinesUnder(Above(n.Keys, l), n)),
                   LinesUnder(Below(m.Keys, k), m) + ([Line(k, v)] + ([Line(l, w)] + LinesUnder(Above(m.Keys, k), m))));
  }

  /** The payload with the swallowing entry, read as two lines. */
  lemma OneAsTwoLines(a: Announcement, k: string, v: string, l: string, w: string)
    requires WellFormed(a) && FreePair(a, k, l)
    ensures var m := OpenMetadata(a.metadata);
            Payload(WithEntry(a, k, Swallowing(v, l, w)))
            == Join(FieldLines(a) + (LinesUnder(Below(m.Keys, k), m)
                                     + ([Line(k, v)] + ([Line(l, w)] + LinesUnder(Above(m.Keys, k), m)))), '\n')
  {
    var m := OpenMetadata(a.metadata);
    var below, above := LinesUnder(Below(m.Keys, k), m), LinesUnder(Above(m.Keys, k), m);
    PayloadWithEntry(a, k, Swallowing(v, l, w));
    SwallowedLine(k, v, l, w);
    MergedPayload(FieldLines(a), below, Line(k, v), Line(l, w), above);
  }

  lemma DifferentJoins(front: seq<string>, x: seq<string>, y: seq<string>)
    requires front != [] && x != y && FreeOf(front + x, '\n') && FreeOf(front + y, '\n')
    ensures Join(front + x, '\n') != Join(front + y, '\n')
  {
    if Join(front + x, '\n') == Join(front + y, '\n') {
      JoinInjective(front + x, front + y, '\n');
      SameTails(front, x, y);
    }
  }

  lemma BothLinesFree(a: Announcement, k: string, v: string, l: string, w: string)
    requires WellFormed(a) && FreePair(a, k, l) && Printable(Content(a))
    requires '\n' !in k && '\n' !in l && '\n' !in v && '\n' !in w
    ensures FreeOf(PayloadLines(WithBoth(a, k, v, l, w)), '\n')
  {
    var b := WithBoth(a, k, v, l, w);
    FieldLinesFree(a);
    assert FieldLines(b) == FieldLines(a);
    assert LinesStayApart(OpenMetadata(a.metadata));
    EntryStaysApart(OpenMetadata(a.metadata), k, v);
    EntryStaysApart(OpenMetadata(a.metadata)[k := v], l, w);
    OpenEntry(a.metadata, k, v);
    OpenEntry(a.metadata[k := v], l, w);
    OpenLinesFree(OpenMetadata(b.metadata));
    LinesAreOfContent(b.metadata);
  }

  lemma OneLinesFree(a: Announcement, k: string, v: string, l: string, w: string)
    requires WellFormed(a) && FreePair(a, k, l) && Printable(Content(a))
    requires '\n' !in k && '\n' !in l && '\n' !in v && '\n' !in w
    ensures var m := OpenMetadata(a.metadata);
            FreeOf(FieldLines(a) + (LinesUnder(Below(m.Keys, k), m)
                                    + ([Line(k, v)] + ([Line(l, w)] + LinesUnder(Above(m.Keys, k), m)))), '\n')
  {
    var m := OpenMetadata(a.metadata);
    EntryLinesFree(a, k, v);
    PayloadWithEntry(a, k, v);
    LineHasNoNewline(l, w);
    OneMoreFree(FieldLines(a), LinesUnder(Below(m.Keys, k), m), Line(k, v), Line(l, w), LinesUnder(Above(m.Keys, k), m));
  }

  lemma OneMoreFree(fields: seq<string>, below: seq<string>, x: string, y: string, above: seq<string>)
    requires FreeOf(fields + (below + ([x] + above)), '\n') && '\n' !in y
    ensures FreeOf(fields + (below + ([x] + ([y] + above))), '\n')
  {
    var all, more := fields + (below + ([x] + above)), fields + (below + ([x] + ([y] + above)));
    var n := |fields| + |below| + 1;
    forall i | 0 <= i < |more| ensures '\n' !in more[i] {
      assert i < n ==> more[i] == all[i];
      assert i == n ==> more[i] == y;
      assert i > n ==> more[i] == all[i - 1];
    }
  }
}
