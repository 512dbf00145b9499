/** Signatures while updates, heartbeats and re-signing interleave. */
module MeshAuth {
  import opened Wrappers
  import opened Types
  import opened Announcements
  import opened Signing
  import opened PayloadInjectivity
  import opened Config
  import opened MeshSpec
  import opened MeshRuns

  // ---------- freshness ----------

  /** Some update call is between its mutation and its re-signing. */
  predicate Unsigned(m: Mesh) {
    exists a :: a in m.flights && m.flights[a].Mutated?
  }

  /** Outside that window the announcement obeys the rule, and so does every copy that startup or
      an update call took. The heartbeat's copy may have been read inside the window. */
  predicate Fresh(signed: Rule, m: Mesh) {
    && (signed(m.local) || Unsigned(m))
    && forall a :: a in m.flights && !a.Heartbeat? && !m.flights[a].Mutated? ==> signed(m.flights[a].copy)
  }

  lemma StepIsFresh(node: Node, signed: Rule, m: Mesh, step: Step)
    requires Possible(m, step) && node.config.advertiseLocal && Held(m)
    requires forall a :: signed(Resigned(node, a))
    requires Fresh(signed, m)
    ensures Fresh(signed, Take(node, m, step))
  {
    var t := Take(node, m, step);
    if Unsigned(m) {
      var a :| a in m.flights && m.flights[a].Mutated?;
      assert a.Call?;
      if step == Sign(a.number) {
        assert signed(t.local);
      } else {
        assert a in t.flights && t.flights[a].Mutated?;
      }
    }
    if step.Mutate? && ApplySetter(m.local, step.setter).Ok? {
      assert t.flights[Call(step.number)].Mutated?;
    }
  }

  lemma {:induction false} RunIsFresh(node: Node, signed: Rule, m: Mesh, steps: seq<Step>)
    requires node.config.advertiseLocal && Held(m) && QuietIfHidden(node, m)
    requires forall a :: signed(Resigned(node, a))
    requires Fresh(signed, m)
    ensures Fresh(signed, RunFrom(node, m, steps))
  {
    if steps != [] {
      var front, step := steps[..|steps| - 1], steps[|steps| - 1];
      RunIsFresh(node, signed, m, front);
      RunIsHeld(node, m, front);
      var before := RunFrom(node, m, front);
      if CanStep(node, before, step) {
        StepIsFresh(node, signed, before, step);
      }
    }
  }

  lemma InitIsFresh(node: Node, signed: Rule)
    requires Valid(node.config) && forall a :: signed(Resigned(node, a))
    ensures Fresh(signed, Init(node))
  {
    LocalAnnouncementMeaning(node.config);
    assert signed(Resigned(node, LocalAnnouncement(node.config).value));
  }

  function Verifies(node: Node, auth: SharedSecretAuth): Rule {
    a => Verify(node.mac, a, auth).Ok?
  }

  /** On a node that advertises and has a secret, after any run: whenever no update call is between
      its two lock scopes the local announcement verifies under the node's own settings, and every
      copy taken by startup or by an update call verifies at every moment. */
  lemma LocalVerifies(node: Node, auth: SharedSecretAuth, steps: seq<Step>)
    requires Valid(node.config) && node.config.advertiseLocal
    requires node.config.sharedSecretAuth == Some(auth) && AcceptsOwn(auth)
    ensures var m := RunFrom(node, Init(node), steps);
            && (!Unsigned(m) ==> Verify(node.mac, m.local, auth).Ok?)
            && (forall a :: a in m.flights && !a.Heartbeat? && !m.flights[a].Mutated? ==>
                  Verify(node.mac, m.flights[a].copy, auth).Ok?)
  {
    var signed := Verifies(node, auth);
    forall a ensures signed(Resigned(node, a)) {
      SignedVerifies(node.mac, a, auth);
    }
    InitIsHeld(node);
    InitIsFresh(node, signed);
    RunIsFresh(node, signed, Init(node), steps);
    var m := RunFrom(node, Init(node), steps);
    forall a | a in m.flights && !a.Heartbeat? && !m.flights[a].Mutated?
      ensures Verify(node.mac, m.flights[a].copy, auth).Ok?
    {
      assert signed(m.flights[a].copy);
    }
  }

  /** A rejected update changes nothing at all. */
  lemma RejectedUpdateIsNoStep(node: Node, m: Mesh, number: nat, setter: Setter)
    requires Possible(m, Mutate(number, setter)) && Held(m)
    requires ApplySetter(m.local, setter).Err?
    ensures Take(node, m, Mutate(number, setter)) == m
  {
  }

  // ---------- the window is real ----------

  /** With the secrets the peer accepts, the tag made for the payload of `signed` is not by chance a tag of a
      different payload of `a`. */
  predicate TellsApart(mac: Mac, a: Announcement, signed: Announcement, auth: SharedSecretAuth,
                       peer: SharedSecretAuth) {
    forall i :: 0 <= i < |peer.verificationSecrets|
                && Signature(mac, peer.verificationSecrets[i], a) == Signature(mac, auth.signingSecret, signed)
                ==> Payload(a) == Payload(signed)
  }

  /** It carries the signature that the node computed for `signed`. */
  predicate CarriesSignatureOf(mac: Mac, a: Announcement, signed: Announcement, auth: SharedSecretAuth) {
    && Holds(a.metadata, AUTH_SCHEME_KEY, SCHEME)
    && Holds(a.metadata, SIGNATURE_KEY, Signature(mac, auth.signingSecret, signed))
  }

  predicate CarriesOwnSignature(mac: Mac, a: Announcement, auth: SharedSecretAuth) {
    CarriesSignatureOf(mac, a, a, auth)
  }

  lemma SignedCarriesOwn(mac: Mac, a: Announcement, auth: SharedSecretAuth)
    ensures CarriesOwnSignature(mac, ApplyAuth(mac, a, auth), auth)
  {
    SigningKeepsContent(mac, a, auth);
    ContentDeterminesPayload(ApplyAuth(mac, a, auth), a);
  }

  /** An announcement with the signature of another one verifies if both have the same payload, and where
      the tag tells the two apart, only then. */
  lemma VerifiesIffSamePayload(mac: Mac, a: Announcement, signed: Announcement, auth: SharedSecretAuth,
                               peer: SharedSecretAuth)
    requires CarriesSignatureOf(mac, a, signed, auth) && auth.signingSecret in peer.verificationSecrets
    ensures Payload(a) == Payload(signed) ==> Verify(mac, a, peer).Ok?
    ensures TellsApart(mac, a, signed, auth, peer) ==> (Verify(mac, a, peer).Ok? <==> Payload(a) == Payload(signed))
  {
    SchemeIsVisible();
    if Payload(a) == Payload(signed) {
      var i :| 0 <= i < |peer.verificationSecrets| && peer.verificationSecrets[i] == auth.signingSecret;
      assert a.metadata[SIGNATURE_KEY] == Signature(mac, peer.verificationSecrets[i], a);
    }
  }

  lemma UpdateKeepsOldSignature(mac: Mac, a: Announcement, setter: Setter, signed: Announcement, auth: SharedSecretAuth)
    requires CarriesSignatureOf(mac, a, signed, auth)
    ensures CarriesSignatureOf(mac, Changed(a, setter), signed, auth)
  {
    ChangeKeepsAuth(a, setter);
  }

  /** After an update the old signature still verifies exactly when the update left the signed
      content as it was. */
  lemma UpdatedVerifiesIffSameContent(mac: Mac, a: Announcement, setter: Setter, auth: SharedSecretAuth)
    requires WellFormed(a) && CarriesOwnSignature(mac, a, auth) && AcceptsOwn(auth)
    requires TellsApart(mac, Changed(a, setter), a, auth, auth)
    requires Printable(Content(a)) && Printable(Content(Changed(a, setter)))
    ensures Verify(mac, Changed(a, setter), auth).Ok? <==> Content(Changed(a, setter)) == Content(a)
  {
    var b := Changed(a, setter);
    UpdateKeepsOldSignature(mac, a, setter, a, auth);
    VerifiesIffSamePayload(mac, b, a, auth, auth);
    ChangeKeepsForm(a, setter);
    PayloadIffContent(a, b);
  }

  /** The updates that a run performs. */
  function UpdatesOf(node: Node, m: Mesh, steps: seq<Step>): seq<Setter> {
    if steps == [] then []
    else
      var front, step := steps[..|steps| - 1], steps[|steps| - 1];
      UpdatesOf(node, m, front)
      + (if CanStep(node, RunFrom(node, m, front), step) && step.Mutate? then [step.setter] else [])
  }

  function ChangedBy(a: Announcement, setters: seq<Setter>): Announcement {
    if setters == [] then a else Changed(ChangedBy(a, setters[..|setters| - 1]), setters[|setters| - 1])
  }

  /** A node that does not advertise never re-signs: after any run its announcement is the first one
      with the run's updates applied and nothing else, although no call is inside the window. */
  lemma {:induction false} HiddenNodeNeverResigns(node: Node, m: Mesh, steps: seq<Step>)
    requires !node.config.advertiseLocal && Held(m) && QuietIfHidden(node, m)
    ensures RunFrom(node, m, steps).local == ChangedBy(m.local, UpdatesOf(node, m, steps))
    ensures !Unsigned(RunFrom(node, m, steps))
  {
    RunIsHeld(node, m, steps);
    if steps != [] {
      var front, step := steps[..|steps| - 1], steps[|steps| - 1];
      HiddenNodeNeverResigns(node, m, front);
      RunIsHeld(node, m, front);
      var setters := UpdatesOf(node, m, front);
      assert setters + [] == setters;
      if CanStep(node, RunFrom(node, m, front), step) && step.Mutate? {
        assert (setters + [step.setter])[..|setters|] == setters;
      }
    }
  }
}
