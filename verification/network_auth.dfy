/** Signed announcements between the nodes of a link: who is heard by whom. */
module NetworkAuth {
  import opened Wrappers
  import opened Types
  import opened Signing
  import opened Config
  import opened Txt
  import opened RoundTrips
  import opened ListenerSpec
  import opened MeshSpec
  import opened MeshRuns
  import opened MeshAuth
  import opened MeshSignatures
  import opened Network

  // ---------- one record at one peer ----------

  /** The peer is another agent that computes tags the same way. */
  ghost predicate IsPeer(owner: Node, peer: Node) {
    LocalId(peer) != LocalId(owner) && peer.mac == owner.mac
  }

  predicate PeerVerifies(peer: Node) {
    VerifiesIncoming(peer.config.sharedSecretAuth)
  }

  /** What the peer verifies, it verifies with the secret among others. */
  predicate Accepts(peer: Node, auth: SharedSecretAuth) {
    PeerVerifies(peer) ==> auth.signingSecret in peer.config.sharedSecretAuth.value.verificationSecrets
  }

  /** The peer hears the announcement as it was published, from the addresses it saw. */
  predicate IsHeard(peer: Node, p: Announcement, addresses: seq<IpAddr>) {
    Heard(peer.mac, LocalId(peer), peer.config.sharedSecretAuth, RecordOf(p, addresses))
    == Some(p.(addresses := addresses))
  }

  lemma HeardIffVerified(owner: Node, p: Announcement, peer: Node, addresses: seq<IpAddr>)
    requires Ours(owner, p) && SafeKeys(p.metadata.Keys) && IsPeer(owner, peer)
    ensures IsHeard(peer, p, addresses)
            <==> (PeerVerifies(peer) ==>
                    Verify(peer.mac, p.(addresses := addresses), peer.config.sharedSecretAuth.value).Ok?)
  {
    SyncedPrintsItsMetadata(p);
    ArrivesIffSafe(p, addresses);
    assert Arrived(p, addresses) == p.(addresses := addresses);
  }

  /** Where the announcement was seen is not signed. */
  lemma AddressesDoNotMatter(mac: Mac, p: Announcement, addresses: seq<IpAddr>, auth: SharedSecretAuth)
    ensures Verify(mac, p.(addresses := addresses), auth).Ok? <==> Verify(mac, p, auth).Ok?
  {
    var b := p.(addresses := addresses);
    assert Content(b) == Content(p);
    ContentDeterminesPayload(b, p);
    assert forall secret :: Signature(mac, secret, b) == Signature(mac, secret, p);
  }

  lemma OwnSignatureIsHeard(owner: Node, auth: SharedSecretAuth, p: Announcement, peer: Node, addresses: seq<IpAddr>)
    requires Ours(owner, p) && SafeKeys(p.metadata.Keys) && CarriesOwnSignature(owner.mac, p, auth)
    requires IsPeer(owner, peer) && Accepts(peer, auth)
    ensures IsHeard(peer, p, addresses)
  {
    HeardIffVerified(owner, p, peer, addresses);
    if PeerVerifies(peer) {
      SignedContentVerifies(owner.mac, p, auth, p, peer.config.sharedSecretAuth.value);
      AddressesDoNotMatter(peer.mac, p, addresses, peer.config.sharedSecretAuth.value);
    }
  }

  // ---------- what carries its own signature ----------

  function SignedBy(node: Node, auth: SharedSecretAuth): Rule {
    a => CarriesOwnSignature(node.mac, a, auth)
  }

  lemma ResigningSigns(node: Node, auth: SharedSecretAuth)
    requires Signs(node, auth)
    ensures forall a :: SignedBy(node, auth)(Resigned(node, a))
  {
    forall a ensures SignedBy(node, auth)(Resigned(node, a)) {
      SignedCarriesOwn(node.mac, a, auth);
    }
  }

  /** In every run of a node that advertises and signs: every copy taken by startup or an update call
      carries its own signature, and so does the local announcement outside the window. */
  lemma CopiesCarryOwn(node: Node, auth: SharedSecretAuth, steps: seq<Step>)
    requires Signs(node, auth) && node.config.advertiseLocal
    ensures Fresh(SignedBy(node, auth), RunFrom(node, Init(node), steps))
  {
    ResigningSigns(node, auth);
    InitIsHeld(node);
    InitIsFresh(node, SignedBy(node, auth));
    RunIsFresh(node, SignedBy(node, auth), Init(node), steps);
  }

  lemma CopyIsOurs(node: Node, steps: seq<Step>, actor: Actor)
    requires Valid(node.config)
    requires var m := RunFrom(node, Init(node), steps); actor in m.flights && !m.flights[actor].Mutated?
    ensures Ours(node, RunFrom(node, Init(node), steps).flights[actor].copy)
  {
    RunIsSound(node, steps);
    assert OursOf(node)(RunFrom(node, Init(node), steps).flights[actor].copy);
  }

  // ---------- in the network ----------

  /** In every run of every network: a copy that startup or an update call is about to publish is heard
      by every other node that does not verify or accepts the secret, if its metadata keys are safe. */
  lemma SignedCopyIsHeard(cluster: Cluster, steps: seq<NetStep>, i: nat, auth: SharedSecretAuth, actor: Actor,
                          j: nat, addresses: seq<IpAddr>)
    requires ValidCluster(cluster) && i < |cluster| && j < |cluster|
    requires Signs(cluster[i], auth) && cluster[i].config.advertiseLocal
    requires IsPeer(cluster[i], cluster[j]) && Accepts(cluster[j], auth)
    requires var m := RunNet(cluster, steps)[i];
             actor in m.flights && !actor.Heartbeat? && !m.flights[actor].Mutated?
             && SafeKeys(m.flights[actor].copy.metadata.Keys)
    ensures IsHeard(cluster[j], RunNet(cluster, steps)[i].flights[actor].copy, addresses)
  {
    var mine := StepsOf(cluster, steps, i);
    NodeRuns(cluster, steps, i);
    CopiesCarryOwn(cluster[i], auth, mine);
    CopyIsOurs(cluster[i], mine, actor);
    var copy := RunNet(cluster, steps)[i].flights[actor].copy;
    assert SignedBy(cluster[i], auth)(copy);
    OwnSignatureIsHeard(cluster[i], auth, copy, cluster[j], addresses);
  }

  /** A peer that verifies hears what was published, if its payload is that of what the owner had last signed
      when it was the owner's announcement, and where the tag tells the two apart, only then. */
  ghost predicate HeardLike(owner: Node, mine: seq<Step>, n: nat, auth: SharedSecretAuth, p: Announcement,
                            peer: Node, addresses: seq<IpAddr>)
    requires Valid(owner.config) && PeerVerifies(peer)
  {
    && VerifiesAsAt(owner, mine, n, p, auth, peer.config.sharedSecretAuth.value)
    && var signed := SignedAt(owner, Init(owner), mine[..n]);
       && (Payload(p) == Payload(signed) ==> IsHeard(peer, p, addresses))
       && (TellsApart(peer.mac, p, signed, auth, peer.config.sharedSecretAuth.value) ==>
             (IsHeard(peer, p, addresses) <==> Payload(p) == Payload(signed)))
  }

  /** In every run of every network: a node that verifies, and accepts the owner's secret, hears what the
      owner published, if its metadata keys are safe, exactly if its payload is that of what the owner
      had last signed when it was the owner's announcement. */
  lemma PublishedIsHeardIff(cluster: Cluster, steps: seq<NetStep>, i: nat, auth: SharedSecretAuth, p: Announcement,
                            j: nat, addresses: seq<IpAddr>)
    requires ValidCluster(cluster) && i < |cluster| && j < |cluster|
    requires Signs(cluster[i], auth)
    requires IsPeer(cluster[i], cluster[j]) && PeerVerifies(cluster[j]) && Accepts(cluster[j], auth)
    requires IsPublished(RunNet(cluster, steps), i, p) && SafeKeys(p.metadata.Keys)
    ensures exists n: nat :: HeardLike(cluster[i], StepsOf(cluster, steps, i), n, auth, p, cluster[j], addresses)
  {
    var mine, peerAuth := StepsOf(cluster, steps, i), cluster[j].config.sharedSecretAuth.value;
    NodeRuns(cluster, steps, i);
    PublishedIsOwn(cluster, steps, i, p);
    PublishedVerifiesIff(cluster[i], auth, mine, p, peerAuth);
    HeardIffVerified(cluster[i], p, cluster[j], addresses);
    AddressesDoNotMatter(cluster[j].mac, p, addresses, peerAuth);
    var n: nat :| VerifiesAsAt(cluster[i], mine, n, p, auth, peerAuth);
    assert HeardLike(cluster[i], mine, n, auth, p, cluster[j], addresses);
  }

  /** If the last record of node i that was delivered to node j is that of the announcement node i holds
      now, its metadata keys are safe, no update call of node i is between its two lock scopes, and node
      j does not verify or accepts the secret, then once the listener is through with it the entry of
      node i at node j, if it is there, is that announcement in every field and all metadata. */
  lemma SignedDeliveryWins(cluster: Cluster, steps: seq<NetStep>, i: nat, auth: SharedSecretAuth, j: nat,
                           addresses: seq<IpAddr>)
    requires ValidCluster(cluster) && i < |cluster| && j < |cluster|
    requires Signs(cluster[i], auth) && cluster[i].config.advertiseLocal && !Unsigned(RunNet(cluster, steps)[i])
    requires IsPeer(cluster[i], cluster[j]) && Accepts(cluster[j], auth)
    requires SafeKeys(RunNet(cluster, steps)[i].local.metadata.Keys)
    requires LastDelivered(cluster[j], Init(cluster[j]), StepsOf(cluster, steps, j), Parsing(LocalId(cluster[i])))
             == Some(RecordOf(RunNet(cluster, steps)[i].local, addresses))
    requires Listened(RunNet(cluster, steps)[j], LocalId(cluster[i]))
    requires LocalId(cluster[i]) in RunNet(cluster, steps)[j].registry.agents
    ensures RunNet(cluster, steps)[j].registry.agents[LocalId(cluster[i])].payload
            == RunNet(cluster, steps)[i].local.(addresses := addresses)
  {
    LocalIsHeard(cluster, steps, i, auth, j, addresses);
    LastDeliveryWins(cluster, steps, j, i, addresses);
  }

  lemma LocalIsHeard(cluster: Cluster, steps: seq<NetStep>, i: nat, auth: SharedSecretAuth, j: nat,
                     addresses: seq<IpAddr>)
    requires ValidCluster(cluster) && i < |cluster| && j < |cluster|
    requires Signs(cluster[i], auth) && cluster[i].config.advertiseLocal && !Unsigned(RunNet(cluster, steps)[i])
    requires IsPeer(cluster[i], cluster[j]) && Accepts(cluster[j], auth)
    requires SafeKeys(RunNet(cluster, steps)[i].local.metadata.Keys)
    ensures IsHeard(cluster[j], RunNet(cluster, steps)[i].local, addresses)
    ensures HeardAs(cluster[j], RecordOf(RunNet(cluster, steps)[i].local, addresses), LocalId(cluster[i]))
  {
    NodeRuns(cluster, steps, i);
    CopiesCarryOwn(cluster[i], auth, StepsOf(cluster, steps, i));
    LocalIsOwn(cluster, steps, i);
    var p := RunNet(cluster, steps)[i].local;
    assert SignedBy(cluster[i], auth)(p);
    OwnSignatureIsHeard(cluster[i], auth, p, cluster[j], addresses);
  }
}
