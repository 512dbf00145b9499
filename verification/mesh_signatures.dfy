/** Which of the announcements that a node holds or publishes verify, over whole runs and with any
    number of update calls at once: those whose payload is that of what the node had last signed. */
module MeshSignatures {
  import opened Wrappers
  import opened Types
  import opened Announcements
  import opened Signing
  import opened PayloadInjectivity
  import opened Config
  import opened MeshSpec
  import opened MeshRuns
  import opened MeshAuth
  import opened MeshStart

  // ---------- the last signing ----------

  /** The length of the run up to the last time the node signed; startup signs at length 0. */
  function LastSign(node: Node, m: Mesh, steps: seq<Step>): (n: nat)
    ensures n <= |steps|
  {
    if steps == [] then 0
    else
      var front, step := steps[..|steps| - 1], steps[|steps| - 1];
      if step.Sign? && CanStep(node, RunFrom(node, m, front), step) then |steps| else LastSign(node, m, front)
  }

  /** The announcement as it was when the node last signed it. */
  function SignedAt(node: Node, m: Mesh, steps: seq<Step>): Announcement {
    RunFrom(node, m, steps[..LastSign(node, m, steps)]).local
  }

  lemma SignedAtOneMore(node: Node, m: Mesh, steps: seq<Step>)
    requires steps != []
    ensures var front, step := steps[..|steps| - 1], steps[|steps| - 1];
            SignedAt(node, m, steps)
            == if step.Sign? && CanStep(node, RunFrom(node, m, front), step) then RunFrom(node, m, steps).local
               else SignedAt(node, m, front)
  {
    var front := steps[..|steps| - 1];
    var n := LastSign(node, m, front);
    assert steps[..n] == front[..n];
    assert steps[..|steps|] == steps;
  }

  /** A node with a secret. */
  predicate Signs(node: Node, auth: SharedSecretAuth) {
    Valid(node.config) && node.config.sharedSecretAuth == Some(auth)
  }

  lemma StepCarriesSignature(node: Node, auth: SharedSecretAuth, m: Mesh, step: Step, signed: Announcement)
    requires Signs(node, auth) && Possible(m, step) && CarriesSignatureOf(node.mac, m.local, signed, auth)
    ensures var a := NextLocal(node, m, step);
            CarriesSignatureOf(node.mac, a, if step.Sign? then a else signed, auth)
  {
    match step
    case Mutate(_, setter) => UpdateKeepsOldSignature(node.mac, m.local, setter, signed, auth);
    case Sign(_) => SignedCarriesOwn(node.mac, m.local, auth);
    case _ =>
  }

  lemma {:induction false} RunCarriesSignature(node: Node, auth: SharedSecretAuth, m: Mesh, steps: seq<Step>)
    requires Signs(node, auth) && CarriesOwnSignature(node.mac, m.local, auth)
    ensures CarriesSignatureOf(node.mac, RunFrom(node, m, steps).local, SignedAt(node, m, steps), auth)
  {
    if steps == [] {
      assert steps[..0] == [];
    } else {
      var front, step := steps[..|steps| - 1], steps[|steps| - 1];
      RunCarriesSignature(node, auth, m, front);
      SignedAtOneMore(node, m, steps);
      var before := RunFrom(node, m, front);
      if CanStep(node, before, step) {
        StepCarriesSignature(node, auth, before, step, SignedAt(node, m, front));
      }
    }
  }

  lemma InitCarriesOwn(node: Node, auth: SharedSecretAuth)
    requires Signs(node, auth)
    ensures CarriesOwnSignature(node.mac, Init(node).local, auth)
  {
    FirstLocal(node);
    SignedCarriesOwn(node.mac, LocalAnnouncement(node.config).value, auth);
  }

  lemma LocalIsOurs(node: Node, steps: seq<Step>)
    requires Valid(node.config)
    ensures Ours(node, RunFrom(node, Init(node), steps).local)
  {
    RunIsSound(node, steps);
    assert OursOf(node)(RunFrom(node, Init(node), steps).local);
  }

  // ---------- what verifies ----------

  /** With the signature of `signed`, a verifies at the peer if it has the same payload. Where the tag tells
      the two apart, it verifies only then; and if both are printable, exactly when its content is the same. */
  predicate VerifiesLike(mac: Mac, a: Announcement, signed: Announcement, auth: SharedSecretAuth,
                         peer: SharedSecretAuth) {
    && (Payload(a) == Payload(signed) ==> Verify(mac, a, peer).Ok?)
    && (TellsApart(mac, a, signed, auth, peer) ==>
          && (Verify(mac, a, peer).Ok? <==> Payload(a) == Payload(signed))
          && (Printable(Content(a)) && Printable(Content(signed)) ==>
                (Verify(mac, a, peer).Ok? <==> Content(a) == Content(signed))))
  }

  /** In every run of a node with a secret, whether or not it advertises: the local announcement
      verifies, at whoever accepts the node's secret, like what the node last signed. */
  lemma LocalVerifiesIff(node: Node, auth: SharedSecretAuth, steps: seq<Step>, peer: SharedSecretAuth)
    requires Signs(node, auth) && auth.signingSecret in peer.verificationSecrets
    ensures VerifiesLike(node.mac, RunFrom(node, Init(node), steps).local, SignedAt(node, Init(node), steps), auth, peer)
  {
    var a, signed := RunFrom(node, Init(node), steps).local, SignedAt(node, Init(node), steps);
    InitCarriesOwn(node, auth);
    RunCarriesSignature(node, auth, Init(node), steps);
    VerifiesIffSamePayload(node.mac, a, signed, auth, peer);
    LocalIsOurs(node, steps);
    LocalIsOurs(node, steps[..LastSign(node, Init(node), steps)]);
    if Printable(Content(a)) && Printable(Content(signed)) {
      PayloadIffContent(a, signed);
    }
  }

  // ---------- the heartbeat's copy ----------

  /** The length of the run before the heartbeat last read the announcement. */
  function LastRead(node: Node, m: Mesh, steps: seq<Step>): (n: nat)
    ensures n <= |steps|
  {
    if steps == [] then 0
    else
      var front, step := steps[..|steps| - 1], steps[|steps| - 1];
      if step.ReadLocal? && CanStep(node, RunFrom(node, m, front), step) then |front| else LastRead(node, m, front)
  }

  lemma StepKeepsCopy(node: Node, m: Mesh, step: Step)
    requires Possible(m, step) && Held(m) && Heartbeat in NextFlights(node, m, step)
    ensures !NextFlights(node, m, step)[Heartbeat].Mutated?
    ensures step.ReadLocal? ==> NextFlights(node, m, step)[Heartbeat].copy == m.local
    ensures !step.ReadLocal? ==> Heartbeat in m.flights && !m.flights[Heartbeat].Mutated?
                                 && NextFlights(node, m, step)[Heartbeat].copy == m.flights[Heartbeat].copy
  {
  }

  lemma {:induction false} CopyWasRead(node: Node, m: Mesh, steps: seq<Step>)
    requires Held(m) && QuietIfHidden(node, m) && Heartbeat !in m.flights
    ensures var t := RunFrom(node, m, steps);
            Heartbeat in t.flights ==>
              && !t.flights[Heartbeat].Mutated?
              && t.flights[Heartbeat].copy == RunFrom(node, m, steps[..LastRead(node, m, steps)]).local
  {
    if steps != [] {
      var front, step := steps[..|steps| - 1], steps[|steps| - 1];
      CopyWasRead(node, m, front);
      RunIsHeld(node, m, front);
      var before := RunFrom(node, m, front);
      var n := LastRead(node, m, front);
      assert steps[..n] == front[..n] && steps[..|front|] == front;
      if CanStep(node, before, step) && Heartbeat in Take(node, before, step).flights {
        StepKeepsCopy(node, before, step);
      }
    }
  }

  /** In every run: the copy a heartbeat carries verifies like what the node had last signed when the
      heartbeat read it. */
  lemma HeartbeatCopyVerifiesIff(node: Node, auth: SharedSecretAuth, steps: seq<Step>, peer: SharedSecretAuth)
    requires Signs(node, auth) && auth.signingSecret in peer.verificationSecrets
    requires Heartbeat in RunFrom(node, Init(node), steps).flights
    ensures var m := RunFrom(node, Init(node), steps);
            var read := steps[..LastRead(node, Init(node), steps)];
            && !m.flights[Heartbeat].Mutated?
            && m.flights[Heartbeat].copy == RunFrom(node, Init(node), read).local
            && VerifiesLike(node.mac, m.flights[Heartbeat].copy, SignedAt(node, Init(node), read), auth, peer)
  {
    InitIsHeld(node);
    FirstLocal(node);
    CopyWasRead(node, Init(node), steps);
    LocalVerifiesIff(node, auth, steps[..LastRead(node, Init(node), steps)], peer);
  }

  // ---------- everything published ----------

  lemma {:induction false} HeldWasLocal(node: Node, m: Mesh, steps: seq<Step>, a: Announcement) returns (n: nat)
    requires m.history.held == {m.local}
    requires a in RunFrom(node, m, steps).history.held
    ensures n <= |steps| && RunFrom(node, m, steps[..n]).local == a
  {
    if steps == [] {
      n := 0;
    } else {
      var front, step := steps[..|steps| - 1], steps[|steps| - 1];
      var before := RunFrom(node, m, front);
      if a in before.history.held {
        n := HeldWasLocal(node, m, front, a);
        assert steps[..n] == front[..n];
      } else {
        assert a == NextLocal(node, before, step);
        n := |steps|;
        assert steps[..n] == steps;
      }
    }
  }

  /** p was the announcement after n steps of the run, and verifies like what was last signed then. */
  predicate VerifiesAsAt(node: Node, steps: seq<Step>, n: nat, p: Announcement, auth: SharedSecretAuth,
                         peer: SharedSecretAuth)
    requires Valid(node.config)
  {
    && n <= |steps|
    && p == RunFrom(node, Init(node), steps[..n]).local
    && VerifiesLike(node.mac, p, SignedAt(node, Init(node), steps[..n]), auth, peer)
  }

  /** In every run: whatever the node has published was its announcement after some part of the run,
      and verifies like what the node had last signed then. */
  lemma PublishedVerifiesIff(node: Node, auth: SharedSecretAuth, steps: seq<Step>, p: Announcement,
                             peer: SharedSecretAuth)
    requires Signs(node, auth) && auth.signingSecret in peer.verificationSecrets
    requires p in RunFrom(node, Init(node), steps).history.published
    ensures exists n: nat :: VerifiesAsAt(node, steps, n, p, auth, peer)
  {
    PublishedWasHeld(node, steps, p);
    var n := HeldWasLocal(node, Init(node), steps, p);
    LocalVerifiesIff(node, auth, steps[..n], peer);
    assert VerifiesAsAt(node, steps, n, p, auth, peer);
  }

  lemma PublishedWasHeld(node: Node, steps: seq<Step>, p: Announcement)
    requires Valid(node.config) && p in RunFrom(node, Init(node), steps).history.published
    ensures p in RunFrom(node, Init(node), steps).history.held
    ensures Init(node).history.held == {Init(node).local}
  {
    InitIsHeld(node);
    RunIsHeld(node, Init(node), steps);
  }

  // ---------- the window is real ----------

  lemma WindowRun(node: Node, m: Mesh, number: nat, setter: Setter)
    requires CanStep(node, m, Mutate(number, setter)) && CanStep(node, m, ReadLocal)
    ensures Changed(m.local, setter) in
            RunFrom(node, m, [] + [Mutate(number, setter)] + [ReadLocal] + [Announce(Heartbeat, true)]).history.published
  {
    RunOneMore(node, m, [], Mutate(number, setter));
    RunOneMore(node, m, [] + [Mutate(number, setter)], ReadLocal);
    RunOneMore(node, m, [] + [Mutate(number, setter)] + [ReadLocal], Announce(Heartbeat, true));
  }

  /** The steps of a node that starts, changes its status, and sends a heartbeat before it has
      signed the change. */
  function WindowSteps(now: nat, status: AgentStatus): seq<Step> {
    StartSteps(now) + ([] + [Mutate(0, SetStatus(status))] + [ReadLocal] + [Announce(Heartbeat, true)])
  }

  /** A changed status with the signature from before the change verifies nowhere. */
  lemma StaleStatusFails(mac: Mac, a: Announcement, status: AgentStatus, auth: SharedSecretAuth, peer: SharedSecretAuth)
    requires CarriesOwnSignature(mac, a, auth) && TellsApart(mac, Changed(a, SetStatus(status)), a, auth, peer)
    requires auth.signingSecret in peer.verificationSecrets && status != a.status
    ensures Verify(mac, Changed(a, SetStatus(status)), peer).Err?
  {
    var p := Changed(a, SetStatus(status));
    UpdateKeepsOldSignature(mac, a, SetStatus(status), a, auth);
    VerifiesIffSamePayload(mac, p, a, auth, peer);
    assert OpenMetadata(p.metadata) == OpenMetadata(a.metadata);
    StatusShowsInPayload(a, p);
  }

  lemma WindowPublishes(node: Node, now: nat, status: AgentStatus)
    requires Valid(node.config) && node.config.advertiseLocal
    ensures Changed(Init(node).local, SetStatus(status)) in
            RunFrom(node, Init(node), WindowSteps(now, status)).history.published
  {
    StartRun(node, now);
    WindowRun(node, RunFrom(node, Init(node), StartSteps(now)), 0, SetStatus(status));
    RunOfConcat(node, Init(node), StartSteps(now),
                [] + [Mutate(0, SetStatus(status))] + [ReadLocal] + [Announce(Heartbeat, true)]);
  }

  lemma InitialStatus(node: Node)
    requires Valid(node.config)
    ensures Init(node).local.status == node.config.initialStatus
  {
    FirstLocal(node);
    LocalAnnouncementMeaning(node.config);
  }

  /** Every node that advertises and signs can publish an announcement that nobody verifies: the
      status it starts with, changed, with the signature from before the change. */
  lemma HeartbeatCanPublishStale(node: Node, auth: SharedSecretAuth, now: nat, status: AgentStatus,
                                 peer: SharedSecretAuth)
    requires Signs(node, auth) && node.config.advertiseLocal
    requires TellsApart(node.mac, Changed(Init(node).local, SetStatus(status)), Init(node).local, auth, peer)
    requires auth.signingSecret in peer.verificationSecrets && status != node.config.initialStatus
    ensures exists p :: p in RunFrom(node, Init(node), WindowSteps(now, status)).history.published
                        && p.status == status && Verify(node.mac, p, peer).Err?
  {
    WindowPublishes(node, now, status);
    InitialStatus(node);
    InitCarriesOwn(node, auth);
    StaleStatusFails(node.mac, Init(node).local, status, auth, peer);
    assert Changed(Init(node).local, SetStatus(status)).status == status;
  }
}
