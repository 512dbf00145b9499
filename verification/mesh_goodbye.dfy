/** Departures that are announced: a peer that says goodbye, and the local agent at shutdown. */
module MeshGoodbye {
  import opened Wrappers
  import opened Types
  import opened Config
  import opened RegistrySpec
  import opened ListenerSpec
  import opened MeshSpec
  import opened MeshRuns

  // ---------- the goodbye of a peer ----------

  predicate SoleBearer(agents: Agents, id: string, name: string) {
    Named(agents, id, name) && forall j :: j in agents && Named(agents, j, name) ==> j == id
  }

  /** The listener is about to remove the name, which no other agent but perhaps the local one bears; the
      agent bears it, if it is still there. */
  predicate Leaving(node: Node, m: Mesh, id: string, name: string) {
    && m.pending == Removing(name)
    && (forall j :: j in m.registry.agents && j != LocalId(node) && Named(m.registry.agents, j, name) ==> j == id)
    && (id in m.registry.agents ==> Named(m.registry.agents, id, name))
  }

  /** The listener neither commits nor panics. */
  predicate LeavesPending(step: Step) {
    !step.CommitListener? && step != PanicTask(ListenerTask)
  }

  lemma EvictedAgents(s: State, ids: seq<string>)
    ensures forall id :: id in EvictAll(s, ids).agents ==> id in s.agents && EvictAll(s, ids).agents[id] == s.agents[id]
  {
    EvictAgents(s, ids);
  }

  /** No step but the listener's brings in or changes an agent other than the local one. */
  lemma OthersStay(node: Node, own: Rule, foreign: Rule, m: Mesh, step: Step)
    requires CanStep(node, m, step) && !step.CommitListener?
    requires Sound(node, own, foreign, m) && OwnRule(node, own)
    ensures var t := NextRegistry(node, m, step);
            forall id :: id in t.agents && id != LocalId(node) ==>
              id in m.registry.agents && t.agents[id] == m.registry.agents[id]
  {
    match step
    case Commit(actor) => assert own(m.flights[actor].copy);
    case CommitSweep(stale) => EvictedAgents(m.registry, stale);
    case _ =>
  }

  lemma LeavingStep(node: Node, own: Rule, foreign: Rule, m: Mesh, step: Step, id: string, name: string)
    requires CanStep(node, m, step) && LeavesPending(step)
    requires Sound(node, own, foreign, m) && OwnRule(node, own)
    requires Leaving(node, m, id, name) && id != LocalId(node)
    ensures Leaving(node, Take(node, m, step), id, name)
  {
    OthersStay(node, own, foreign, m, step);
    assert NextPending(node, m, step) == m.pending;
  }

  lemma {:induction false} LeavingRun(node: Node, own: Rule, foreign: Rule, m: Mesh, steps: seq<Step>, id: string,
                                      name: string)
    requires forall i :: 0 <= i < |steps| ==> LeavesPending(steps[i])
    requires Sound(node, own, foreign, m) && OwnRule(node, own) && ForeignRule(node, foreign)
    requires Leaving(node, m, id, name) && id != LocalId(node)
    ensures Leaving(node, RunFrom(node, m, steps), id, name)
  {
    if steps != [] {
      var front, step := steps[..|steps| - 1], steps[|steps| - 1];
      LeavingRun(node, own, foreign, m, front, id, name);
      RunStaysSound(node, own, foreign, m, front);
      if CanStep(node, RunFrom(node, m, front), step) {
        LeavingStep(node, own, foreign, RunFrom(node, m, front), step, id, name);
      }
    }
  }

  /** The agent is not known, and the listener is not about to bring it in. */
  predicate Gone(m: Mesh, id: string) {
    id !in m.registry.agents && !(m.pending.Upserting? && m.pending.announcement.agentId == id)
  }

  predicate NeverHeard(node: Node, steps: seq<Step>, id: string) {
    forall i :: 0 <= i < |steps| && steps[i].Deliver? ==> !HeardAs(node, steps[i].event, id)
  }

  lemma GoneStep(node: Node, own: Rule, foreign: Rule, m: Mesh, step: Step, id: string)
    requires CanStep(node, m, step) && (step.Deliver? ==> !HeardAs(node, step.event, id))
    requires Sound(node, own, foreign, m) && OwnRule(node, own)
    requires Gone(m, id) && id != LocalId(node)
    ensures Gone(Take(node, m, step), id)
  {
    if !step.CommitListener? {
      OthersStay(node, own, foreign, m, step);
    }
  }

  lemma {:induction false} GoneRun(node: Node, own: Rule, foreign: Rule, m: Mesh, steps: seq<Step>, id: string)
    requires Sound(node, own, foreign, m) && OwnRule(node, own) && ForeignRule(node, foreign)
    requires NeverHeard(node, steps, id)
    requires Gone(m, id) && id != LocalId(node)
    ensures Gone(RunFrom(node, m, steps), id)
  {
    if steps != [] {
      var front, step := steps[..|steps| - 1], steps[|steps| - 1];
      GoneRun(node, own, foreign, m, front, id);
      RunStaysSound(node, own, foreign, m, front);
      if CanStep(node, RunFrom(node, m, front), step) {
        GoneStep(node, own, foreign, RunFrom(node, m, front), step, id);
      }
    }
  }

  lemma CommittedGoodbye(node: Node, own: Rule, foreign: Rule, m: Mesh, victim: Option<string>, id: string,
                         name: string)
    requires CanStep(node, m, CommitListener(victim)) && Leaving(node, m, id, name)
    requires Sound(node, own, foreign, m) && OwnRule(node, own) && name != InstanceName(node.config)
    ensures var t := Take(node, m, CommitListener(victim));
            && Gone(t, id)
            && (if id in m.registry.agents then LeftAs(m.registry, t.registry, id, Remote, Graceful)
                else t.registry == m.registry)
  {
    if victim.Some? {
      NamedVictimIsForeign(node, own, m.history.held, foreign, m.registry, name, victim.value);
    }
    if id in m.registry.agents {
      assert Named(m.registry.agents, id, name);
    }
  }

  lemma StateIsSound(node: Node, steps: seq<Step>)
    requires Valid(node.config)
    ensures Sound(node, OursOf(node), ForeignTo(node), RunFrom(node, Init(node), steps))
    ensures OwnRule(node, OursOf(node)) && ForeignRule(node, ForeignTo(node))
  {
    OursIsOwnRule(node);
    ForeignIsForeignRule(node);
    RunIsSound(node, steps);
  }

  /** The steps from the delivery of a goodbye to the moment before its commit. */
  function GoodbyeSteps(name: string, now: nat, between: seq<Step>): seq<Step> {
    [Deliver(ServiceEvent.Removed(name), now)] + between
  }

  lemma LeavingAtCommit(node: Node, own: Rule, foreign: Rule, m: Mesh, name: string, now: nat, between: seq<Step>,
                        id: string)
    requires Sound(node, own, foreign, m) && OwnRule(node, own) && ForeignRule(node, foreign)
    requires name != InstanceName(node.config) && CanStep(node, m, Deliver(ServiceEvent.Removed(name), now))
    requires SoleBearer(m.registry.agents, id, name)
    requires forall i :: 0 <= i < |between| ==> LeavesPending(between[i])
    ensures id != LocalId(node)
    ensures Leaving(node, RunFrom(node, m, GoodbyeSteps(name, now, between)), id, name)
  {
    var step := Deliver(ServiceEvent.Removed(name), now);
    NamedVictimIsForeign(node, own, m.history.held, foreign, m.registry, name, id);
    RunOneMore(node, m, [], step);
    assert [] + [step] == [step];
    StepIsSound(node, own, foreign, m, step);
    LeavingRun(node, own, foreign, RunFrom(node, m, [step]), between, id, name);
    RunOfConcat(node, m, [step], between);
  }

  /** From any sound state on. */
  lemma GoodbyeLands(node: Node, own: Rule, foreign: Rule, m: Mesh, name: string, now: nat, between: seq<Step>,
                     victim: Option<string>, id: string)
    requires Sound(node, own, foreign, m) && OwnRule(node, own) && ForeignRule(node, foreign)
    requires name != InstanceName(node.config) && CanStep(node, m, Deliver(ServiceEvent.Removed(name), now))
    requires SoleBearer(m.registry.agents, id, name)
    requires forall i :: 0 <= i < |between| ==> LeavesPending(between[i])
    requires CanStep(node, RunFrom(node, m, GoodbyeSteps(name, now, between)), CommitListener(victim))
    ensures var before := RunFrom(node, m, GoodbyeSteps(name, now, between));
            var after := Take(node, before, CommitListener(victim));
            && id != LocalId(node) && Gone(after, id) && Sound(node, own, foreign, after)
            && if id in before.registry.agents then LeftAs(before.registry, after.registry, id, Remote, Graceful)
               else after.registry == before.registry
  {
    LeavingAtCommit(node, own, foreign, m, name, now, between, id);
    RunStaysSound(node, own, foreign, m, GoodbyeSteps(name, now, between));
    var before := RunFrom(node, m, GoodbyeSteps(name, now, between));
    CommittedGoodbye(node, own, foreign, before, victim, id, name);
    StepIsSound(node, own, foreign, before, CommitListener(victim));
  }

  /** After any run, the goodbye of a name that one agent alone bears is delivered. When the listener commits
      it, whatever the other tasks do in between, the agent is gone: with one graceful departure and no other
      change, unless a sweep had taken it before. It stays away as long as nothing is heard under its id. */
  lemma GoodbyeRemoves(node: Node, front: seq<Step>, name: string, now: nat, between: seq<Step>,
                       victim: Option<string>, rest: seq<Step>, id: string)
    requires Valid(node.config) && name != InstanceName(node.config)
    requires var m := RunFrom(node, Init(node), front);
             && CanStep(node, m, Deliver(ServiceEvent.Removed(name), now))
             && SoleBearer(m.registry.agents, id, name)
             && (forall i :: 0 <= i < |between| ==> LeavesPending(between[i]))
             && CanStep(node, RunFrom(node, m, GoodbyeSteps(name, now, between)), CommitListener(victim))
    requires NeverHeard(node, rest, id)
    ensures var before := RunFrom(node, RunFrom(node, Init(node), front), GoodbyeSteps(name, now, between));
            var after := Take(node, before, CommitListener(victim));
            && (if id in before.registry.agents then LeftAs(before.registry, after.registry, id, Remote, Graceful)
                else after.registry == before.registry)
            && id !in RunFrom(node, after, rest).registry.agents
  {
    StateIsSound(node, front);
    var m := RunFrom(node, Init(node), front);
    GoodbyeLands(node, OursOf(node), ForeignTo(node), m, name, now, between, victim, id);
    var after := Take(node, RunFrom(node, m, GoodbyeSteps(name, now, between)), CommitListener(victim));
    GoneRun(node, OursOf(node), ForeignTo(node), after, rest, id);
  }

  /** The goodbye of the node's own name, however it comes back from the network, changes nothing. */
  lemma OwnGoodbyeIsIgnored(node: Node, m: Mesh, now: nat)
    requires Possible(m, Deliver(ServiceEvent.Removed(InstanceName(node.config)), now))
    ensures Take(node, m, Deliver(ServiceEvent.Removed(InstanceName(node.config)), now)) == m
  {
  }

  // ---------- the local agent at shutdown ----------

  lemma RemovalStep(node: Node, own: Rule, foreign: Rule, m: Mesh)
    requires Sound(node, own, foreign, m) && OwnRule(node, own) && CanStep(node, m, RemoveLocal)
    ensures var t := NextRegistry(node, m, RemoveLocal);
            if LocalId(node) in m.registry.agents then LeftAs(m.registry, t, LocalId(node), Local, Graceful)
            else t == m.registry
  {
    assert own(m.local);
    if LocalId(node) in m.registry.agents {
      assert EntryRule(node, m.history.held, foreign)(LocalId(node), m.registry.agents[LocalId(node)].payload);
    }
  }

  /** After any run, the removal at shutdown takes the local agent and no other, and reports that it left
      gracefully by the node's own doing; if it is not there, nothing happens. */
  lemma RemovalIsGraceful(node: Node, steps: seq<Step>)
    requires Valid(node.config) && CanStep(node, RunFrom(node, Init(node), steps), RemoveLocal)
    ensures var before := RunFrom(node, Init(node), steps);
            var after := Take(node, before, RemoveLocal);
            if LocalId(node) in before.registry.agents
            then LeftAs(before.registry, after.registry, LocalId(node), Local, Graceful)
            else after.registry == before.registry
  {
    StateIsSound(node, steps);
    RemovalStep(node, OursOf(node), ForeignTo(node), RunFrom(node, Init(node), steps));
  }
}
