/** The wire format spelled out: the TXT strings of an announcement and the payload that is signed, for the
    announcements with the fewest entries, and which keys the crate keeps for itself. */
module WireFormat {
  import opened Text
  import opened Ordering
  import opened Types
  import opened Announcements
  import opened Signing
  import opened Txt
  import C = Capabilities

  // ---------- reserved keys ----------

  /** Signing and printing write exactly the reserved keys: an announcement with capabilities and no open
      metadata is signed and printed under all of them, and under no other key. */
  lemma ReservedKeysAreWritten(mac: Mac, a: Announcement, auth: SharedSecretAuth, key: string)
    requires OpenMetadata(a.metadata) == map[] && a.capabilities != []
    ensures key in PrintedMetadata(ApplyAuth(mac, a, auth)) <==> IsReservedKey(key)
  {
    assert forall k :: k in a.metadata && !IsReservedKey(k) ==> k in OpenMetadata(a.metadata);
  }

  // ---------- the TXT strings ----------

  lemma {:induction false} LessAfterPrefix(prefix: string, a: string, b: string)
    requires Less(a, b)
    ensures Less(prefix + a, prefix + b)
  {
    if prefix == [] {
      assert prefix + a == a && prefix + b == b;
    } else {
      LessAfterPrefix(prefix[1..], a, b);
      assert (prefix + a)[1..] == prefix[1..] + a && (prefix + b)[1..] == prefix[1..] + b;
    }
  }

  lemma BranchBeforeProject()
    ensures Less(BRANCH_KEY, PROJECT_KEY)
  {
    LessAfterPrefix("current_", "branch", "project");
    assert BRANCH_KEY == "current_" + "branch" && PROJECT_KEY == "current_" + "project";
  }

  const PRINTED_KEYS := [AGENT_ID_KEY, CAPABILITIES_KEY, BRANCH_KEY, PROJECT_KEY, ROLE_KEY, STATUS_KEY]

  lemma CapabilitiesBeforeBranch()
    ensures Less(CAPABILITIES_KEY, BRANCH_KEY)
  {
    LessAfterPrefix("c", "apabilities", "urrent_branch");
    assert CAPABILITIES_KEY == "c" + "apabilities" && BRANCH_KEY == "c" + "urrent_branch";
  }

  lemma FirstLetterDecides(a: string, b: string)
    requires a != [] && b != [] && a[0] < b[0]
    ensures Less(a, b)
  {
  }

  lemma OthersInOrder()
    ensures Less(AGENT_ID_KEY, CAPABILITIES_KEY) && Less(PROJECT_KEY, ROLE_KEY) && Less(ROLE_KEY, STATUS_KEY)
  {
    FirstLetterDecides(AGENT_ID_KEY, CAPABILITIES_KEY);
    FirstLetterDecides(PROJECT_KEY, ROLE_KEY);
    FirstLetterDecides(ROLE_KEY, STATUS_KEY);
  }

  lemma PrintedKeysAscend()
    ensures Ascending(PRINTED_KEYS)
  {
    OthersInOrder();
    CapabilitiesBeforeBranch();
    BranchBeforeProject();
    SixAscend(AGENT_ID_KEY, CAPABILITIES_KEY, BRANCH_KEY, PROJECT_KEY, ROLE_KEY, STATUS_KEY);
  }

  lemma SixAscend(a: string, b: string, c: string, d: string, e: string, f: string)
    requires Less(a, b) && Less(b, c) && Less(c, d) && Less(d, e) && Less(e, f)
    ensures Ascending([a, b, c, d, e, f])
  {
    PrependBefore(e, [f]);
    PrependBefore(d, [e] + [f]);
    PrependBefore(c, [d] + ([e] + [f]));
    PrependBefore(b, [c] + ([d] + ([e] + [f])));
    PrependBefore(a, [b] + ([c] + ([d] + ([e] + [f]))));
    assert [a] + ([b] + ([c] + ([d] + ([e] + [f])))) == [a, b, c, d, e, f];
  }

  lemma PrependBefore(x: string, s: seq<string>)
    requires Ascending(s) && s != [] && Less(x, s[0])
    ensures Ascending([x] + s)
  {
    forall j | 0 <= j < |s| ensures Less(x, s[j]) {
      if j > 0 {
        LessTransitive(x, s[0], s[j]);
      }
    }
    PrependAscending(x, s);
  }

  /** Without other metadata. */
  predicate IsBare(a: Announcement) {
    a.capabilities != [] && forall k :: k in a.metadata ==> k in PRINTED_KEYS
  }

  lemma BareKeys(a: Announcement)
    requires IsBare(a)
    ensures InOrder(PrintedMetadata(a).Keys) == PRINTED_KEYS
  {
    PrintedKeysAscend();
    InOrderAscending(PrintedMetadata(a).Keys);
    assert Elems(PRINTED_KEYS) == PrintedMetadata(a).Keys;
    AscendingUnique(InOrder(PrintedMetadata(a).Keys), PRINTED_KEYS);
  }

  lemma SixStrings(keys: seq<string>, m: Metadata)
    requires |keys| == 6 && Elems(keys) <= m.Keys
    ensures forall i :: 0 <= i < 6 ==> keys[i] in m
    ensures EncodeAll(PrintKeys(keys, m))
            == [ Encode((keys[0], m[keys[0]])), Encode((keys[1], m[keys[1]])), Encode((keys[2], m[keys[2]])),
                 Encode((keys[3], m[keys[3]])), Encode((keys[4], m[keys[4]])), Encode((keys[5], m[keys[5]])) ]
  {
    EncodeStep(keys, m);
    EncodeStep(keys[1..], m);
    EncodeStep(keys[2..], m);
    EncodeStep(keys[3..], m);
    EncodeStep(keys[4..], m);
    EncodeStep(keys[5..], m);
  }

  lemma Labelled(key: string, tag: string, value: string)
    requires key + "=" == tag
    ensures Encode((key, value)) == tag + value
  {
  }

  lemma BareStrings(a: Announcement)
    requires IsBare(a)
    ensures EncodeAll(Print(a))
            == [ Encode((AGENT_ID_KEY, a.agentId)),
                 Encode((CAPABILITIES_KEY, Join(a.capabilities, ','))),
                 Encode((BRANCH_KEY, a.branch)),
                 Encode((PROJECT_KEY, a.project)),
                 Encode((ROLE_KEY, a.role)),
                 Encode((STATUS_KEY, StatusText(a.status))) ]
  {
    BareKeys(a);
    SixStrings(PRINTED_KEYS, PrintedMetadata(a));
  }

  /** The record of an announcement without other metadata: these six strings, in this order. */
  lemma BareRecord(a: Announcement)
    requires IsBare(a)
    ensures EncodeAll(Print(a))
            == [ "agent_id=" + a.agentId,
                 "capabilities=" + Join(a.capabilities, ','),
                 "current_branch=" + a.branch,
                 "current_project=" + a.project,
                 "role=" + a.role,
                 "status=" + StatusText(a.status) ]
  {
    BareStrings(a);
    Labelled(AGENT_ID_KEY, "agent_id=", a.agentId);
    Labelled(CAPABILITIES_KEY, "capabilities=", Join(a.capabilities, ','));
    Labelled(BRANCH_KEY, "current_branch=", a.branch);
    Labelled(PROJECT_KEY, "current_project=", a.project);
    Labelled(ROLE_KEY, "role=", a.role);
    Labelled(STATUS_KEY, "status=", StatusText(a.status));
  }

  /** What signing adds: the scheme by its name, and the tag of the payload as it was before. */
  lemma SignedEntries(mac: Mac, a: Announcement, auth: SharedSecretAuth)
    ensures var b := ApplyAuth(mac, a, auth);
            && Holds(b.metadata, "zcm_auth", "shared_secret_hmac_sha256")
            && Holds(b.metadata, "zcm_sig", mac(auth.signingSecret, Payload(a)))
            && b == a.(metadata := b.metadata)
            && b.metadata - {"zcm_auth", "zcm_sig"} == a.metadata - {"zcm_auth", "zcm_sig"}
  {
    SigningKeepsContent(mac, a, auth);
  }

  // ---------- the signed payload ----------

  lemma JoinStep(line: string, rest: seq<string>)
    requires rest != []
    ensures Join([line] + rest, '\n') == line + "\n" + Join(rest, '\n')
  {
    assert ([line] + rest)[1..] == rest;
  }

  lemma JoinNine(a: string, b: string, c: string, d: string, e: string, f: string, g: string, h: string, i: string)
    ensures Join([a, b, c, d, e, f, g, h, i], '\n')
            == a + "\n" + (b + "\n" + (c + "\n" + (d + "\n" + (e + "\n" + (f + "\n" + (g + "\n" + (h + "\n" + i)))))))
  {
    JoinStep(a, [b, c, d, e, f, g, h, i]);
    JoinStep(b, [c, d, e, f, g, h, i]);
    JoinStep(c, [d, e, f, g, h, i]);
    JoinStep(d, [e, f, g, h, i]);
    JoinStep(e, [f, g, h, i]);
    JoinStep(f, [g, h, i]);
    JoinStep(g, [h, i]);
    JoinStep(h, [i]);
  }

  lemma OneOpenLine(m: Metadata, key: string)
    requires OpenMetadata(m).Keys == {key}
    ensures key in m && MetadataLines(InOrder(m.Keys), m) == ["metadata:" + key + "=" + m[key]]
  {
    assert key in OpenMetadata(m);
    InOrderAscending(m.Keys);
    OpenKeysMeaning(InOrder(m.Keys));
    LinesOfOpenKeys(InOrder(m.Keys), m);
    assert Elems(OpenKeys(InOrder(m.Keys))) == {key};
    AscendingUnique(OpenKeys(InOrder(m.Keys)), [key]);
  }

  /** What is signed, for an announcement with one open metadata entry: this text of nine lines. */
  lemma PayloadOfOneEntry(a: Announcement, key: string)
    requires OpenMetadata(a.metadata).Keys == {key}
    ensures key in a.metadata
    ensures Payload(a)
            == "instance_name=" + a.instanceName + "\n"
               + ("agent_id=" + a.agentId + "\n"
               + ("role=" + a.role + "\n"
               + ("project=" + a.project + "\n"
               + ("branch=" + a.branch + "\n"
               + ("status=" + StatusText(a.status) + "\n"
               + ("capabilities=" + Join(a.capabilities, ',') + "\n"
               + ("port=" + Decimal(a.port) + "\n"
               + ("metadata:" + key + "=" + a.metadata[key]))))))))
  {
    OneOpenLine(a.metadata, key);
    var f, entry := FieldLines(a), "metadata:" + key + "=" + a.metadata[key];
    JoinNine(f[0], f[1], f[2], f[3], f[4], f[5], f[6], f[7], entry);
    assert PayloadLines(a) == [f[0], f[1], f[2], f[3], f[4], f[5], f[6], f[7], entry];
  }
}
