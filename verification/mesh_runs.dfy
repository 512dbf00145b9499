/** What every run of a node keeps, whatever the interleaving: which announcements can be in the
    registry, that the listener and the local tasks stay apart, and that runs of a node are runs
    of its registry. */
module MeshRuns {
  import opened Wrappers
  import opened Types
  import opened Announcements
  import opened Signing
  import opened Config
  import opened RoundTrips
  import opened RegistrySpec
  import opened ListenerSpec
  import opened MeshSpec

  // ---------- runs of a node are runs of its registry ----------

  lemma RunOneMore(node: Node, m: Mesh, steps: seq<Step>, step: Step)
    ensures var before := RunFrom(node, m, steps);
            RunFrom(node, m, steps + [step]) == if CanStep(node, before, step) then Take(node, before, step) else before
  {
  }

  lemma OpsOneMore(node: Node, m: Mesh, steps: seq<Step>, step: Step)
    ensures OpsOf(node, m, steps + [step]) == OpsOf(node, m, steps) + OpsIn(node, RunFrom(node, m, steps), step)
  {
    var all := steps + [step];
    assert all[..|all| - 1] == steps;
  }

  lemma {:induction false} RunOfConcat(node: Node, m: Mesh, a: seq<Step>, b: seq<Step>)
    ensures RunFrom(node, m, a + b) == RunFrom(node, RunFrom(node, m, a), b)
  {
    if b == [] {
      assert a + b == a;
    } else {
      assert (a + b)[..|a + b| - 1] == a + b[..|b| - 1];
      RunOfConcat(node, m, a, b[..|b| - 1]);
    }
  }

  /** The step at position i of a run takes place; a step that is not possible is skipped. */
  predicate Performed(node: Node, m: Mesh, steps: seq<Step>, i: nat)
    requires i < |steps|
  {
    CanStep(node, RunFrom(node, m, steps[..i]), steps[i])
  }

  lemma PerformedInFront(node: Node, m: Mesh, steps: seq<Step>, i: nat)
    requires i < |steps| - 1
    ensures Performed(node, m, steps, i) <==> Performed(node, m, steps[..|steps| - 1], i)
  {
    assert steps[..|steps| - 1][..i] == steps[..i];
  }

  /** The registry of a node is, in every run, what a legal run of registry operations leaves. */
  lemma {:induction false} MeshRunIsRegistryRun(node: Node, steps: seq<Step>)
    requires Valid(node.config)
    ensures var ops := OpsOf(node, Init(node), steps);
            && RunFrom(node, Init(node), steps).registry == After(ops)
            && Legal(node.config.ttl, ops)
  {
    if steps != [] {
      var front, step := steps[..|steps| - 1], steps[|steps| - 1];
      MeshRunIsRegistryRun(node, front);
      var before := RunFrom(node, Init(node), front);
      var ops := OpsOf(node, Init(node), front);
      if CanStep(node, before, step) && RegistryOp(node, before, step).Some? {
        AfterOneMore(ops, RegistryOp(node, before, step).value, node.config.ttl);
      } else {
        assert ops + [] == ops;
      }
    }
  }

  // ---------- the copies of the local announcement ----------

  /** A property of announcements. The invariant below is proved for any property of the node's
      own announcements that its changes keep, and any property that what it hears has. */
  type Rule = Announcement -> bool

  /** Changing and signing keep the rule; it fixes the id and the instance name. */
  ghost predicate OwnRule(node: Node, own: Rule) {
    && (forall a, setter :: own(a) ==> own(Changed(a, setter)))
    && (forall a :: own(a) ==> own(Resigned(node, a)))
    && (forall a :: own(a) ==> a.agentId == LocalId(node) && a.instanceName == InstanceName(node.config))
  }

  ghost predicate ForeignRule(node: Node, foreign: Rule) {
    && (forall event: ServiceEvent :: event.Resolved? ==>
          var h := Heard(node.mac, LocalId(node), node.config.sharedSecretAuth, event);
          h.Some? ==> foreign(h.value))
    && (forall a :: foreign(a) ==> a.agentId != LocalId(node))
  }

  predicate AllObey(held: set<Announcement>, own: Rule) {
    forall a :: a in held ==> own(a)
  }

  /** Every copy on its way was held by the node at some time; only a call can be between its two
      lock scopes. */
  predicate CopiesHeld(m: Mesh) {
    forall a :: a in m.flights ==>
      if m.flights[a].Mutated? then a.Call? else m.flights[a].copy in m.history.held
  }

  predicate Held(m: Mesh) {
    && m.local in m.history.held
    && m.history.published <= m.history.held
    && CopiesHeld(m)
  }

  /** A node that does not advertise has no heartbeat and nothing on its way. */
  predicate QuietIfHidden(node: Node, m: Mesh) {
    !node.config.advertiseLocal ==> m.flights == map[] && m.tasks.heartbeat.Off?
  }

  lemma HeldStep(node: Node, m: Mesh, step: Step)
    requires Possible(m, step) && Held(m)
    ensures Held(Take(node, m, step))
  {
  }

  lemma QuietStep(node: Node, m: Mesh, step: Step)
    requires Possible(m, step) && QuietIfHidden(node, m)
    ensures QuietIfHidden(node, Take(node, m, step))
  {
  }

  lemma {:induction false} RunIsHeld(node: Node, m: Mesh, steps: seq<Step>)
    requires Held(m) && QuietIfHidden(node, m)
    ensures Held(RunFrom(node, m, steps)) && QuietIfHidden(node, RunFrom(node, m, steps))
  {
    if steps != [] {
      var front, step := steps[..|steps| - 1], steps[|steps| - 1];
      RunIsHeld(node, m, front);
      var before := RunFrom(node, m, front);
      if CanStep(node, before, step) {
        HeldStep(node, before, step);
        QuietStep(node, before, step);
      }
    }
  }

  lemma InitIsHeld(node: Node)
    requires Valid(node.config)
    ensures Held(Init(node)) && QuietIfHidden(node, Init(node))
  {
  }

  lemma OwnStep(node: Node, own: Rule, m: Mesh, step: Step)
    requires Possible(m, step) && Held(m) && OwnRule(node, own) && AllObey(m.history.held, own)
    ensures AllObey(NextHistory(node, m, step).held, own)
  {
  }

  // ---------- what the listener may put in ----------

  predicate PendingForeign(node: Node, foreign: Rule, m: Mesh) {
    match m.pending
    case Nothing => true
    case Upserting(a, _) => foreign(a)
    case Removing(fullname) => fullname != InstanceName(node.config)
  }

  lemma PendingStep(node: Node, foreign: Rule, m: Mesh, step: Step)
    requires Possible(m, step) && PendingForeign(node, foreign, m) && ForeignRule(node, foreign)
    ensures PendingForeign(node, foreign, Take(node, m, step))
  {
  }

  // ---------- the registry ----------

  /** Every operation a node performs on its registry is one of these five. */
  predicate GoodOp(node: Node, held: set<Announcement>, foreign: Rule, op: Op) {
    match op
    case Upsert(a, _, Local) => node.config.advertiseLocal && a in held
    case Upsert(a, _, Remote) => foreign(a)
    case Remove(id, origin, reason) =>
      node.config.advertiseLocal && id == LocalId(node) && origin == Local && reason == Graceful
    case RemoveNamed(name, _) => name != InstanceName(node.config)
    case Sweep(_, _) => true
  }

  predicate GoodEntry(node: Node, held: set<Announcement>, foreign: Rule, id: string, a: Announcement) {
    if id == LocalId(node) then node.config.advertiseLocal && a in held else foreign(a)
  }

  function EntryRule(node: Node, held: set<Announcement>, foreign: Rule): (string, Announcement) -> bool {
    (id, a) => GoodEntry(node, held, foreign, id, a)
  }

  /** Local events are about the local agent, and no expiry; remote events other than expiry are about others. */
  predicate GoodEvent(node: Node, e: Event) {
    && (e.origin == Local ==> Subject(e) == LocalId(node) && !(e.Left? && e.reason == Expired))
    && (e.origin == Remote && !(e.Left? && e.reason == Expired) ==> Subject(e) != LocalId(node))
  }

  function EventRule(node: Node): Event -> bool {
    e => GoodEvent(node, e)
  }

  predicate GoodRegistry(node: Node, held: set<Announcement>, foreign: Rule, s: State) {
    && Keyed(s.agents)
    && EntriesObey(s.agents, EntryRule(node, held, foreign))
    && LogObeys(s.log, EventRule(node))
  }

  lemma UpsertKeepsGood(node: Node, own: Rule, held: set<Announcement>, foreign: Rule, s: State, a: Announcement,
                        seenAt: nat, origin: EventOrigin)
    requires GoodRegistry(node, held, foreign, s) && OwnRule(node, own) && AllObey(held, own)
             && ForeignRule(node, foreign)
    requires GoodOp(node, held, foreign, Upsert(a, seenAt, origin))
    ensures GoodRegistry(node, held, foreign, ApplyUpsert(s, a, seenAt, origin))
  {
    assert origin == Local <==> a.agentId == LocalId(node) by {
      assert origin == Local ==> own(a);
    }
    UpsertObeys(s, a, seenAt, origin, EntryRule(node, held, foreign), EventRule(node));
  }

  lemma RemoveKeepsGood(node: Node, held: set<Announcement>, foreign: Rule, s: State, id: string,
                        origin: EventOrigin, reason: DepartureReason)
    requires GoodRegistry(node, held, foreign, s)
    requires origin == Local <==> id == LocalId(node)
    requires reason == Graceful
    ensures GoodRegistry(node, held, foreign, ApplyRemove(s, id, origin, reason))
  {
  }

  lemma EvictKeepsGood(node: Node, held: set<Announcement>, foreign: Rule, s: State, ids: seq<string>)
    requires GoodRegistry(node, held, foreign, s)
    ensures GoodRegistry(node, held, foreign, EvictAll(s, ids))
  {
    EvictObeys(s, ids, EntryRule(node, held, foreign), EventRule(node));
  }

  /** The victim of a removal by instance name is never the local agent. */
  lemma NamedVictimIsForeign(node: Node, own: Rule, held: set<Announcement>, foreign: Rule, s: State,
                             name: string, id: string)
    requires GoodRegistry(node, held, foreign, s) && OwnRule(node, own) && AllObey(held, own)
    requires name != InstanceName(node.config) && Named(s.agents, id, name)
    ensures id != LocalId(node)
  {
  }

  lemma OpKeepsGood(node: Node, own: Rule, held: set<Announcement>, foreign: Rule, s: State, op: Op)
    requires GoodRegistry(node, held, foreign, s) && OwnRule(node, own) && AllObey(held, own)
             && ForeignRule(node, foreign)
    requires GoodOp(node, held, foreign, op) && Enabled(s, node.config.ttl, op)
    ensures GoodRegistry(node, held, foreign, Apply(s, op))
  {
    match op
    case Upsert(a, seenAt, origin) => UpsertKeepsGood(node, own, held, foreign, s, a, seenAt, origin);
    case Remove(id, origin, reason) => RemoveKeepsGood(node, held, foreign, s, id, origin, reason);
    case RemoveNamed(name, Some(id)) =>
      NamedVictimIsForeign(node, own, held, foreign, s, name, id);
      RemoveKeepsGood(node, held, foreign, s, id, Remote, Graceful);
    case RemoveNamed(_, None) =>
    case Sweep(_, stale) => EvictKeepsGood(node, held, foreign, s, stale);
  }

  lemma MoreHeldKeepsGood(node: Node, held: set<Announcement>, more: set<Announcement>, foreign: Rule, s: State)
    requires GoodRegistry(node, held, foreign, s) && held <= more
    ensures GoodRegistry(node, more, foreign, s)
  {
  }

  // ---------- the invariant ----------

  predicate Sound(node: Node, own: Rule, foreign: Rule, m: Mesh) {
    && Held(m)
    && AllObey(m.history.held, own)
    && QuietIfHidden(node, m)
    && PendingForeign(node, foreign, m)
    && GoodRegistry(node, m.history.held, foreign, m.registry)
  }

  lemma RegistryOpIsGood(node: Node, own: Rule, foreign: Rule, m: Mesh, step: Step)
    requires Possible(m, step) && Sound(node, own, foreign, m) && OwnRule(node, own)
    ensures RegistryOp(node, m, step).Some? ==> GoodOp(node, m.history.held, foreign, RegistryOp(node, m, step).value)
  {
  }

  lemma HeldGrows(node: Node, m: Mesh, step: Step)
    requires Possible(m, step)
    ensures m.history.held <= NextHistory(node, m, step).held
  {
  }

  lemma RegistryStepIsGood(node: Node, own: Rule, foreign: Rule, m: Mesh, step: Step)
    requires CanStep(node, m, step) && Sound(node, own, foreign, m) && OwnRule(node, own) && ForeignRule(node, foreign)
    ensures GoodRegistry(node, m.history.held, foreign, NextRegistry(node, m, step))
  {
    RegistryOpIsGood(node, own, foreign, m, step);
    if RegistryOp(node, m, step).Some? {
      OpKeepsGood(node, own, m.history.held, foreign, m.registry, RegistryOp(node, m, step).value);
    }
  }

  lemma StepIsSound(node: Node, own: Rule, foreign: Rule, m: Mesh, step: Step)
    requires CanStep(node, m, step) && Sound(node, own, foreign, m) && OwnRule(node, own) && ForeignRule(node, foreign)
    ensures Sound(node, own, foreign, Take(node, m, step))
  {
    HeldStep(node, m, step);
    OwnStep(node, own, m, step);
    QuietStep(node, m, step);
    PendingStep(node, foreign, m, step);
    HeldGrows(node, m, step);
    RegistryStepIsGood(node, own, foreign, m, step);
    MoreHeldKeepsGood(node, m.history.held, NextHistory(node, m, step).held, foreign, NextRegistry(node, m, step));
  }

  lemma InitIsSound(node: Node, own: Rule, foreign: Rule)
    requires Valid(node.config) && OwnRule(node, own)
    requires LocalAnnouncement(node.config).Ok? && own(LocalAnnouncement(node.config).value)
    ensures Sound(node, own, foreign, Init(node))
  {
  }

  lemma {:induction false} RunStaysSound(node: Node, own: Rule, foreign: Rule, m: Mesh, steps: seq<Step>)
    requires OwnRule(node, own) && ForeignRule(node, foreign) && Sound(node, own, foreign, m)
    ensures Sound(node, own, foreign, RunFrom(node, m, steps))
  {
    if steps != [] {
      var front, step := steps[..|steps| - 1], steps[|steps| - 1];
      RunStaysSound(node, own, foreign, m, front);
      var before := RunFrom(node, m, front);
      if CanStep(node, before, step) {
        StepIsSound(node, own, foreign, before, step);
      }
    }
  }

  /** In every run, whatever the rules: everything the node has held obeys the rule for its own
      announcements; the local entry was held before, and is there only if the node advertises;
      every other entry obeys the rule for what is heard; every entry is stored under its own id;
      local events are about the local agent and report no expiry, and remote events are about others
      unless they report expiry. */
  lemma RunKeepsRules(node: Node, own: Rule, foreign: Rule, steps: seq<Step>)
    requires Valid(node.config) && OwnRule(node, own) && ForeignRule(node, foreign)
    requires LocalAnnouncement(node.config).Ok? && own(LocalAnnouncement(node.config).value)
    ensures Sound(node, own, foreign, RunFrom(node, Init(node), steps))
  {
    InitIsSound(node, own, foreign);
    RunStaysSound(node, own, foreign, Init(node), steps);
  }

  // ---------- the two rules of the crate ----------

  /** An announcement of this node: well formed, in step, under its own id and instance name. */
  predicate Ours(node: Node, a: Announcement) {
    && WellFormed(a) && Synced(a)
    && a.agentId == LocalId(node)
    && a.instanceName == InstanceName(node.config)
  }

  /** An announcement the listener accepts: well formed, not under the local id and, where verification is
      on, with the scheme and the tag of its own payload under an accepted secret. */
  predicate Foreign(node: Node, a: Announcement) {
    && WellFormed(a)
    && a.agentId != LocalId(node)
    && (VerifiesIncoming(node.config.sharedSecretAuth) ==> CarriesTag(node.mac, a, node.config.sharedSecretAuth.value))
  }

  function OursOf(node: Node): Rule {
    a => Ours(node, a)
  }

  function ForeignTo(node: Node): Rule {
    a => Foreign(node, a)
  }

  lemma ResignedIsOurs(node: Node, a: Announcement)
    requires Ours(node, a)
    ensures Ours(node, Resigned(node, a))
  {
    if node.config.sharedSecretAuth.Some? {
      SigningKeepsForm(node.mac, a, node.config.sharedSecretAuth.value);
      SigningKeepsSync(node.mac, a, node.config.sharedSecretAuth.value);
    }
  }

  lemma ChangedIsOurs(node: Node, a: Announcement, setter: Setter)
    requires Ours(node, a)
    ensures Ours(node, Changed(a, setter))
  {
    ChangeKeepsForm(a, setter);
    ChangeKeepsSync(a, setter);
  }

  lemma OursIsOwnRule(node: Node)
    ensures OwnRule(node, OursOf(node))
  {
    forall a, setter | OursOf(node)(a) ensures OursOf(node)(Changed(a, setter)) {
      ChangedIsOurs(node, a, setter);
    }
    forall a | OursOf(node)(a) ensures OursOf(node)(Resigned(node, a)) {
      ResignedIsOurs(node, a);
    }
  }

  lemma HeardIsForeign(node: Node, event: ServiceEvent)
    requires event.Resolved?
    ensures var h := Heard(node.mac, LocalId(node), node.config.sharedSecretAuth, event);
            h.Some? ==> Foreign(node, h.value)
  {
    ParsedIsWellFormed(event.fullname, event.port, event.addresses, event.properties);
    var h := Heard(node.mac, LocalId(node), node.config.sharedSecretAuth, event);
    if h.Some? {
      HeardIff(node.mac, LocalId(node), node.config.sharedSecretAuth, event, h.value);
    }
  }

  lemma ForeignIsForeignRule(node: Node)
    ensures ForeignRule(node, ForeignTo(node))
  {
    forall event: ServiceEvent | event.Resolved?
      ensures var h := Heard(node.mac, LocalId(node), node.config.sharedSecretAuth, event);
              h.Some? ==> ForeignTo(node)(h.value)
    {
      HeardIsForeign(node, event);
    }
  }

  lemma FirstIsOurs(node: Node)
    requires Valid(node.config)
    ensures LocalAnnouncement(node.config).Ok? && OursOf(node)(LocalAnnouncement(node.config).value)
  {
    LocalAnnouncementMeaning(node.config);
  }

  lemma RunIsSound(node: Node, steps: seq<Step>)
    requires Valid(node.config)
    ensures Sound(node, OursOf(node), ForeignTo(node), RunFrom(node, Init(node), steps))
  {
    OursIsOwnRule(node);
    ForeignIsForeignRule(node);
    FirstIsOurs(node);
    RunKeepsRules(node, OursOf(node), ForeignTo(node), steps);
  }

  /** Spelled out for one entry of the registry, after any run: under the local id there is an
      announcement of the node itself that it held before, and only if it advertises; under any
      other id there is a well-formed announcement of that id which, where verification is on, carries the
      scheme and the tag of its own payload under an accepted secret. */
  lemma EntryIsGood(node: Node, steps: seq<Step>, id: string)
    requires Valid(node.config)
    requires id in RunFrom(node, Init(node), steps).registry.agents
    ensures var m := RunFrom(node, Init(node), steps);
            var a := m.registry.agents[id].payload;
            && a.agentId == id
            && (id == LocalId(node) ==> node.config.advertiseLocal && a in m.history.held && Ours(node, a))
            && (id != LocalId(node) ==> Foreign(node, a))
  {
    RunIsSound(node, steps);
    var m := RunFrom(node, Init(node), steps);
    var a := m.registry.agents[id].payload;
    assert EntryRule(node, m.history.held, ForeignTo(node))(id, a);
    assert a in m.history.held ==> OursOf(node)(a);
  }

  /** Spelled out for one event of the log. */
  lemma EventIsGood(node: Node, steps: seq<Step>, i: nat)
    requires Valid(node.config)
    requires i < |RunFrom(node, Init(node), steps).registry.log|
    ensures GoodEvent(node, RunFrom(node, Init(node), steps).registry.log[i])
  {
    RunIsSound(node, steps);
    assert EventRule(node)(RunFrom(node, Init(node), steps).registry.log[i]);
  }

  // ---------- the listener and the local entry ----------

  predicate SameEntry(before: State, after: State, id: string) {
    && (id in before.agents <==> id in after.agents)
    && (id in before.agents ==> before.agents[id] == after.agents[id])
  }

  lemma ForeignOpSparesLocal(s: State, op: Op, id: string)
    requires (op.Upsert? && op.announcement.agentId != id) || (op.RemoveNamed? && op.victim != Some(id))
    requires Keyed(s.agents)
    ensures SameEntry(s, Apply(s, op), id)
    ensures s.log <= Apply(s, op).log
    ensures forall i :: |s.log| <= i < |Apply(s, op).log| ==> Subject(Apply(s, op).log[i]) != id
  {
  }

  lemma ListenerOpIsForeign(node: Node, own: Rule, foreign: Rule, m: Mesh, victim: Option<string>)
    requires CanStep(node, m, CommitListener(victim)) && Sound(node, own, foreign, m)
    requires OwnRule(node, own) && ForeignRule(node, foreign)
    ensures var op := RegistryOp(node, m, CommitListener(victim)).value;
            || (op.Upsert? && op.announcement.agentId != LocalId(node))
            || (op.RemoveNamed? && op.victim != Some(LocalId(node)))
  {
  }

  lemma ListenerStepSparesLocal(node: Node, own: Rule, foreign: Rule, m: Mesh, step: Step)
    requires CanStep(node, m, step) && Sound(node, own, foreign, m)
    requires OwnRule(node, own) && ForeignRule(node, foreign)
    requires step.Deliver? || step.CommitListener?
    ensures var after := NextRegistry(node, m, step);
            && SameEntry(m.registry, after, LocalId(node))
            && m.registry.log <= after.log
            && forall i :: |m.registry.log| <= i < |after.log| ==> Subject(after.log[i]) != LocalId(node)
  {
    if step.CommitListener? {
      ListenerOpIsForeign(node, own, foreign, m, step.victim);
      ForeignOpSparesLocal(m.registry, RegistryOp(node, m, step).value, LocalId(node));
    }
  }

  /** After any run, no step of the listener touches the entry of the local agent, whatever
      arrives from the network, and none of its events is about the local agent. */
  lemma ListenerSparesLocal(node: Node, steps: seq<Step>, step: Step)
    requires Valid(node.config)
    requires step.Deliver? || step.CommitListener?
    requires CanStep(node, RunFrom(node, Init(node), steps), step)
    ensures var before := RunFrom(node, Init(node), steps).registry;
            var after := RunFrom(node, Init(node), steps + [step]).registry;
            && SameEntry(before, after, LocalId(node))
            && before.log <= after.log
            && forall i :: |before.log| <= i < |after.log| ==> Subject(after.log[i]) != LocalId(node)
  {
    OursIsOwnRule(node);
    ForeignIsForeignRule(node);
    RunIsSound(node, steps);
    RunOneMore(node, Init(node), steps, step);
    ListenerStepSparesLocal(node, OursOf(node), ForeignTo(node), RunFrom(node, Init(node), steps), step);
  }
}
