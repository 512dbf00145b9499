/** Shared-secret signing. HMAC and its base64 text are one function of a secret and a payload
    about which only this is known: its output is never blank. */
module Signing {
  import opened Wrappers
  import opened Text
  import opened Ordering
  import opened Types
  import opened Announcements

  type Mac = f: (string, string) -> string | forall s, p :: !Blank(f(s, p)) witness (s, p) => AnySignature()

  function AnySignature(): (s: string)
    ensures !Blank(s)
  {
    TrimOfTrimmed("x");
    "x"
  }

  const SCHEME := "shared_secret_hmac_sha256"

  datatype SharedSecretMode = SignOnly | SignAndVerify

  datatype SharedSecretAuth = SharedSecretAuth(
    signingSecret: string,
    verificationSecrets: seq<string>,
    mode: SharedSecretMode)

  function NormalizeSecret(secret: string): Outcome<string> {
    var trimmed := Trim(secret);
    if trimmed == [] then Err(EmptySharedSecret) else Ok(trimmed)
  }

  function NormalizeSecrets(secrets: seq<string>): Outcome<seq<string>> {
    if secrets == [] then Ok([])
    else
      var first :- NormalizeSecret(secrets[0]);
      var rest :- NormalizeSecrets(secrets[1..]);
      Ok([first] + rest)
  }

  function NewAuth(secret: string, mode: SharedSecretMode): Outcome<SharedSecretAuth> {
    var signing :- NormalizeSecret(secret);
    Ok(SharedSecretAuth(signing, [signing], mode))
  }

  function WithRotation(signing: string, accepted: seq<string>, mode: SharedSecretMode): Outcome<SharedSecretAuth> {
    var signing :- NormalizeSecret(signing);
    var normalized :- NormalizeSecrets(accepted);
    var all := if signing in normalized then normalized else normalized + [signing];
    Ok(SharedSecretAuth(signing, Dedup(Sort(all)), mode))
  }

  lemma {:induction false} NormalizeSecretsMeaning(secrets: seq<string>)
    ensures NormalizeSecrets(secrets).Ok? <==> forall i :: 0 <= i < |secrets| ==> !Blank(secrets[i])
    ensures NormalizeSecrets(secrets).Err? ==> NormalizeSecrets(secrets) == Err(EmptySharedSecret)
    ensures NormalizeSecrets(secrets).Ok? ==> Elems(NormalizeSecrets(secrets).value) == TrimmedAll(secrets)
  {
    if secrets != [] {
      var rest := secrets[1..];
      NormalizeSecretsMeaning(rest);
      assert forall i :: 0 < i < |secrets| ==> secrets[i] == rest[i - 1];
      if NormalizeSecrets(secrets).Ok? {
        ElemsOfConcat([Trim(secrets[0])], NormalizeSecrets(rest).value);
        forall x ensures x in TrimmedAll(secrets) <==> x in TrimmedAll(rest) + {Trim(secrets[0])} {
          if x in TrimmedAll(rest) {
            var i :| 0 <= i < |rest| && x == Trim(rest[i]);
            assert x == Trim(secrets[i + 1]);
          }
        }
      } else if !Blank(secrets[0]) {
        var i :| 0 <= i < |rest| && Blank(rest[i]);
        assert Blank(secrets[i + 1]);
      }
    }
  }

  /** Rotation accepts exactly the given secrets and the signing secret, all trimmed, each once,
      and fails exactly when one of them is blank. */
  lemma WithRotationMeaning(signing: string, accepted: seq<string>, mode: SharedSecretMode)
    ensures var r := WithRotation(signing, accepted, mode);
            && (r.Ok? <==> !Blank(signing) && forall i :: 0 <= i < |accepted| ==> !Blank(accepted[i]))
            && (r.Err? ==> r == Err(EmptySharedSecret))
            && (r.Ok? ==>
                  && r.value.signingSecret == Trim(signing)
                  && r.value.mode == mode
                  && Ascending(r.value.verificationSecrets)
                  && Elems(r.value.verificationSecrets) == TrimmedAll(accepted) + {Trim(signing)})
  {
    NormalizeSecretsMeaning(accepted);
    if !Blank(signing) && NormalizeSecrets(accepted).Ok? {
      var normalized := NormalizeSecrets(accepted).value;
      var s := Trim(signing);
      ElemsOfConcat(normalized, [s]);
      SortDedup(if s in normalized then normalized else normalized + [s]);
      assert s in normalized <==> s in Elems(normalized);
    }
  }

  /** A single secret is accepted exactly if it is not blank. Trimmed, it signs and is the only one that is
      accepted, in the mode asked for: rotation without further secrets. */
  lemma NewAuthMeaning(secret: string, mode: SharedSecretMode)
    ensures var r := NewAuth(secret, mode);
            if Blank(secret) then r == Err(EmptySharedSecret)
            else
              && r.Ok? && r.value.signingSecret == Trim(secret) && r.value.mode == mode
              && Elems(r.value.verificationSecrets) == {Trim(secret)}
    ensures NewAuth(secret, mode) == WithRotation(secret, [], mode)
  {
    if !Blank(secret) {
      SortOne(Trim(secret));
      assert [] + [Trim(secret)] == [Trim(secret)];
    }
  }

  lemma SortOne(s: string)
    ensures Dedup(Sort([s])) == [s]
  {
    assert Sort([s]) == Insert(s, Sort([]));
  }

  /** Settings under which a node accepts what it signs itself. */
  predicate AcceptsOwn(auth: SharedSecretAuth) {
    auth.signingSecret in auth.verificationSecrets
  }

  lemma ConstructedAuthAcceptsOwn(secret: string, accepted: seq<string>, mode: SharedSecretMode)
    ensures NewAuth(secret, mode).Ok? ==> AcceptsOwn(NewAuth(secret, mode).value)
    ensures WithRotation(secret, accepted, mode).Ok? ==> AcceptsOwn(WithRotation(secret, accepted, mode).value)
  {
    WithRotationMeaning(secret, accepted, mode);
    if WithRotation(secret, accepted, mode).Ok? {
      var v := WithRotation(secret, accepted, mode).value.verificationSecrets;
      assert Trim(secret) in Elems(v);
    }
  }

  // ---------- the signed payload ----------

  function Line(key: string, value: string): string {
    "metadata:" + key + "=" + value
  }

  /** One line for each key that is not reserved, in the order of the keys. */
  function MetadataLines(keys: seq<string>, metadata: Metadata): seq<string>
    requires Elems(keys) <= metadata.Keys
  {
    if keys == [] then []
    else
      assert keys[0] in Elems(keys);
      assert Elems(keys[1..]) <= Elems(keys);
      (if IsReservedKey(keys[0]) then [] else [Line(keys[0], metadata[keys[0]])])
      + MetadataLines(keys[1..], metadata)
  }

  function FieldLines(a: Announcement): (lines: seq<string>)
    ensures |lines| == 8
  {
    [ "instance_name=" + a.instanceName,
      "agent_id=" + a.agentId,
      "role=" + a.role,
      "project=" + a.project,
      "branch=" + a.branch,
      "status=" + StatusText(a.status),
      "capabilities=" + Join(a.capabilities, ','),
      "port=" + Decimal(a.port) ]
  }

  function PayloadLines(a: Announcement): seq<string> {
    FieldLines(a) + MetadataLines(InOrder(a.metadata.Keys), a.metadata)
  }

  function Payload(a: Announcement): string {
    Join(PayloadLines(a), '\n')
  }

  function Signature(mac: Mac, secret: string, a: Announcement): string {
    mac(secret, Payload(a))
  }

  function ApplyAuth(mac: Mac, a: Announcement, auth: SharedSecretAuth): Announcement {
    var marked := a.(metadata := a.metadata[AUTH_SCHEME_KEY := SCHEME]);
    marked.(metadata := marked.metadata[SIGNATURE_KEY := Signature(mac, auth.signingSecret, marked)])
  }

  function RequiredAuth(metadata: Metadata, key: string): Outcome<string> {
    if key in metadata && !Blank(metadata[key]) then Ok(metadata[key]) else Err(MissingAuthMetadata(key))
  }

  function Verify(mac: Mac, a: Announcement, auth: SharedSecretAuth): Outcome<()> {
    var scheme :- RequiredAuth(a.metadata, AUTH_SCHEME_KEY);
    var signature :- RequiredAuth(a.metadata, SIGNATURE_KEY);
    if scheme != SCHEME then Err(InvalidAuthScheme(scheme))
    else if exists i :: 0 <= i < |auth.verificationSecrets|
                        && signature == Signature(mac, auth.verificationSecrets[i], a)
    then Ok(())
    else Err(InvalidSharedSecretSignature(a.agentId))
  }

  /** It carries the scheme, and the tag of its own payload under one of the accepted secrets. */
  predicate CarriesTag(mac: Mac, a: Announcement, auth: SharedSecretAuth) {
    && Holds(a.metadata, AUTH_SCHEME_KEY, SCHEME)
    && exists s :: s in auth.verificationSecrets && Holds(a.metadata, SIGNATURE_KEY, mac(s, Payload(a)))
  }

  lemma SchemeIsVisible()
    ensures !Blank(SCHEME)
  {
  }

  lemma TagOfSomeSecret(mac: Mac, a: Announcement, secrets: seq<string>, tag: string)
    ensures (exists i :: 0 <= i < |secrets| && tag == Signature(mac, secrets[i], a))
            <==> exists s :: s in secrets && tag == mac(s, Payload(a))
  {
    if s :| s in secrets && tag == mac(s, Payload(a)) {
      var i :| 0 <= i < |secrets| && secrets[i] == s;
      assert tag == Signature(mac, secrets[i], a);
    }
  }

  /** An announcement verifies exactly if it carries the scheme and, under an accepted secret, the tag of its
      own payload. */
  lemma VerifyIff(mac: Mac, a: Announcement, peer: SharedSecretAuth)
    ensures Verify(mac, a, peer).Ok? <==> CarriesTag(mac, a, peer)
  {
    SchemeIsVisible();
    if SIGNATURE_KEY in a.metadata {
      TagOfSomeSecret(mac, a, peer.verificationSecrets, a.metadata[SIGNATURE_KEY]);
    }
  }

  predicate IsMissing(metadata: Metadata, key: string) {
    key !in metadata || Blank(metadata[key])
  }

  /** One that does not verify is refused for a missing scheme, a missing signature, another scheme or a
      signature that does not fit, whichever comes first. */
  lemma VerifyRefusal(mac: Mac, a: Announcement, peer: SharedSecretAuth)
    requires !CarriesTag(mac, a, peer)
    ensures Verify(mac, a, peer)
            == Err(if IsMissing(a.metadata, AUTH_SCHEME_KEY) then MissingAuthMetadata(AUTH_SCHEME_KEY)
                   else if IsMissing(a.metadata, SIGNATURE_KEY) then MissingAuthMetadata(SIGNATURE_KEY)
                   else if !Holds(a.metadata, AUTH_SCHEME_KEY, SCHEME)
                   then InvalidAuthScheme(a.metadata[AUTH_SCHEME_KEY])
                   else InvalidSharedSecretSignature(a.agentId))
  {
    VerifyIff(mac, a, peer);
  }

  // ---------- what is signed ----------

  /** The metadata entries that enter the payload. */
  function OpenMetadata(metadata: Metadata): Metadata {
    map k | k in metadata && !IsReservedKey(k) :: metadata[k]
  }

  /** Everything the payload depends on: all typed fields but the addresses, and the metadata
      under keys that are not reserved. */
  datatype SignedContent = SignedContent(
    instanceName: string, agentId: string, role: string, project: string, branch: string,
    status: AgentStatus, capabilities: seq<string>, port: Port, metadata: Metadata)

  function Content(a: Announcement): SignedContent {
    SignedContent(a.instanceName, a.agentId, a.role, a.project, a.branch, a.status, a.capabilities,
                  a.port, OpenMetadata(a.metadata))
  }

  function OpenKeys(keys: seq<string>): seq<string> {
    if keys == [] then []
    else (if IsReservedKey(keys[0]) then [] else [keys[0]]) + OpenKeys(keys[1..])
  }

  lemma {:induction false} OpenKeysMeaning(keys: seq<string>)
    requires Ascending(keys)
    ensures Ascending(OpenKeys(keys))
    ensures Elems(OpenKeys(keys)) == set k | k in Elems(keys) && !IsReservedKey(k)
  {
    if keys != [] {
      var first, rest := keys[0], keys[1..];
      OpenKeysMeaning(rest);
      assert keys == [first] + rest;
      ElemsOfConcat([first], rest);
      if !IsReservedKey(first) {
        ElemsOfConcat([first], OpenKeys(rest));
        forall j | 0 <= j < |OpenKeys(rest)| ensures Less(first, OpenKeys(rest)[j]) {
          assert OpenKeys(rest)[j] in Elems(OpenKeys(rest));
          assert OpenKeys(rest)[j] in Elems(rest);
        }
        PrependAscending(first, OpenKeys(rest));
      } else {
        assert OpenKeys(keys) == OpenKeys(rest);
      }
    }
  }

  lemma {:induction false} LinesOfOpenKeys(keys: seq<string>, metadata: Metadata)
    requires Elems(keys) <= metadata.Keys
    ensures Elems(OpenKeys(keys)) <= OpenMetadata(metadata).Keys
    ensures MetadataLines(keys, metadata) == MetadataLines(OpenKeys(keys), OpenMetadata(metadata))
  {
    if keys != [] {
      var first, rest := keys[0], keys[1..];
      assert first in Elems(keys);
      assert Elems(rest) <= Elems(keys);
      LinesOfOpenKeys(rest, metadata);
      if !IsReservedKey(first) {
        ElemsOfConcat([first], OpenKeys(rest));
        assert OpenKeys(keys)[1..] == OpenKeys(rest);
      } else {
        assert OpenKeys(keys) == OpenKeys(rest);
        assert MetadataLines(keys, metadata) == MetadataLines(rest, metadata);
      }
    }
  }

  /** The payload is a function of the signed content. */
  lemma ContentDeterminesPayload(a: Announcement, b: Announcement)
    requires Content(a) == Content(b)
    ensures Payload(a) == Payload(b)
  {
    LinesAreOfContent(a.metadata);
    LinesAreOfContent(b.metadata);
  }

  lemma LinesAreOfContent(metadata: Metadata)
    ensures MetadataLines(InOrder(metadata.Keys), metadata)
            == MetadataLines(InOrder(OpenMetadata(metadata).Keys), OpenMetadata(metadata))
  {
    var keys := InOrder(metadata.Keys);
    var open := OpenMetadata(metadata);
    InOrderAscending(metadata.Keys);
    OpenKeysMeaning(keys);
    LinesOfOpenKeys(keys, metadata);
    InOrderAscending(open.Keys);
    assert Elems(OpenKeys(keys)) == open.Keys;
    AscendingUnique(OpenKeys(keys), InOrder(open.Keys));
  }

  // ---------- signing and verifying ----------

  /** A signed announcement verifies wherever the signing secret is accepted, also after its
      reserved metadata or its addresses have been rewritten, as long as the scheme and the
      signature are kept. */
  lemma SignedContentVerifies(mac: Mac, a: Announcement, auth: SharedSecretAuth, b: Announcement,
                              peer: SharedSecretAuth)
    requires auth.signingSecret in peer.verificationSecrets
    requires Content(b) == Content(a)
    requires Holds(b.metadata, AUTH_SCHEME_KEY, SCHEME)
    requires Holds(b.metadata, SIGNATURE_KEY, Signature(mac, auth.signingSecret, a))
    ensures Verify(mac, b, peer).Ok?
  {
    ContentDeterminesPayload(a, b);
    var i :| 0 <= i < |peer.verificationSecrets| && peer.verificationSecrets[i] == auth.signingSecret;
    assert b.metadata[SIGNATURE_KEY] == Signature(mac, peer.verificationSecrets[i], b);
    SchemeIsVisible();
  }

  /** Signing changes auth metadata only, so the signed content is what it was. */
  lemma SigningKeepsContent(mac: Mac, a: Announcement, auth: SharedSecretAuth)
    ensures Content(ApplyAuth(mac, a, auth)) == Content(a)
    ensures Holds(ApplyAuth(mac, a, auth).metadata, AUTH_SCHEME_KEY, SCHEME)
    ensures Holds(ApplyAuth(mac, a, auth).metadata, SIGNATURE_KEY, Signature(mac, auth.signingSecret, a))
  {
    var marked := a.(metadata := a.metadata[AUTH_SCHEME_KEY := SCHEME]);
    assert OpenMetadata(marked.metadata) == OpenMetadata(a.metadata);
    ContentDeterminesPayload(marked, a);
    var b := ApplyAuth(mac, a, auth);
    assert OpenMetadata(b.metadata) == OpenMetadata(a.metadata);
  }

  /** What a node has just signed verifies under its own settings. */
  lemma SignedVerifies(mac: Mac, a: Announcement, auth: SharedSecretAuth)
    requires AcceptsOwn(auth)
    ensures Verify(mac, ApplyAuth(mac, a, auth), auth).Ok?
  {
    SigningKeepsContent(mac, a, auth);
    SignedContentVerifies(mac, a, auth, ApplyAuth(mac, a, auth), auth);
  }

  /** Signing keeps the form of an announcement. */
  lemma SigningKeepsForm(mac: Mac, a: Announcement, auth: SharedSecretAuth)
    requires WellFormed(a)
    ensures WellFormed(ApplyAuth(mac, a, auth)) && SameIdentity(a, ApplyAuth(mac, a, auth))
  {
    var b := ApplyAuth(mac, a, auth);
    assert b.metadata == a.metadata[AUTH_SCHEME_KEY := SCHEME][SIGNATURE_KEY := b.metadata[SIGNATURE_KEY]];
    InsertKeepsKeysVisible(a.metadata, AUTH_SCHEME_KEY, SCHEME);
    InsertKeepsKeysVisible(a.metadata[AUTH_SCHEME_KEY := SCHEME], SIGNATURE_KEY, b.metadata[SIGNATURE_KEY]);
  }

  lemma SigningKeepsSync(mac: Mac, a: Announcement, auth: SharedSecretAuth)
    requires Synced(a)
    ensures Synced(ApplyAuth(mac, a, auth))
  {
  }
}
