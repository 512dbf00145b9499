/** Once all update calls have returned, one heartbeat brings the registry up to date. */
module MeshConvergence {
  import opened Config
  import opened RegistrySpec
  import opened MeshSpec
  import opened MeshRuns

  /** Neither a new update call nor the beginning of a shutdown. */
  predicate Quiet(step: Step) {
    !step.Mutate? && !step.SwapShutdown? && !step.Drop?
  }

  predicate AllQuiet(steps: seq<Step>) {
    forall i :: 0 <= i < |steps| ==> Quiet(steps[i])
  }

  /** The node has started, nobody is shutting it down, and no update call is under way. */
  predicate AllReturned(m: Mesh) {
    m.booted && m.shutdown.Running? && forall a :: a in m.flights ==> a.Heartbeat?
  }

  /** A heartbeat under way carries the current announcement. */
  predicate FreshHeartbeat(m: Mesh) {
    && AllReturned(m)
    && (Heartbeat in m.flights ==> !m.flights[Heartbeat].Mutated? && m.flights[Heartbeat].copy == m.local)
  }

  /** The local entry, if there is one, is the current announcement. */
  predicate UpToDate(node: Node, m: Mesh) {
    && FreshHeartbeat(m)
    && (LocalId(node) in m.registry.agents ==> m.registry.agents[LocalId(node)].payload == m.local)
  }

  lemma QuietStepReturned(node: Node, m: Mesh, step: Step)
    requires Possible(m, step) && Quiet(step) && AllReturned(m)
    ensures AllReturned(Take(node, m, step)) && Take(node, m, step).local == m.local
  {
  }

  lemma QuietStepFresh(node: Node, m: Mesh, step: Step)
    requires Possible(m, step) && Quiet(step) && FreshHeartbeat(m)
    ensures FreshHeartbeat(Take(node, m, step))
  {
  }

  lemma ReadMakesFresh(node: Node, m: Mesh)
    requires Possible(m, ReadLocal) && AllReturned(m)
    ensures FreshHeartbeat(Take(node, m, ReadLocal)) && Take(node, m, ReadLocal).local == m.local
  {
  }

  lemma OtherStepsKeepEntry(node: Node, own: Rule, foreign: Rule, m: Mesh, step: Step)
    requires CanStep(node, m, step) && !step.Commit?
    requires Sound(node, own, foreign, m) && OwnRule(node, own) && ForeignRule(node, foreign)
    ensures var after := NextRegistry(node, m, step);
            LocalId(node) in after.agents ==>
              LocalId(node) in m.registry.agents
              && after.agents[LocalId(node)].payload == m.registry.agents[LocalId(node)].payload
  {
    match step
    case CommitListener(_) => ListenerStepSparesLocal(node, own, foreign, m, step);
    case CommitSweep(stale) => EvictAgents(m.registry, stale);
    case RemoveLocal =>
    case _ =>
  }

  lemma QuietStepUpToDate(node: Node, own: Rule, foreign: Rule, m: Mesh, step: Step)
    requires CanStep(node, m, step) && Quiet(step) && UpToDate(node, m)
    requires Sound(node, own, foreign, m) && OwnRule(node, own) && ForeignRule(node, foreign)
    ensures UpToDate(node, Take(node, m, step)) && Take(node, m, step).local == m.local
  {
    QuietStepReturned(node, m, step);
    QuietStepFresh(node, m, step);
    if step.Commit? {
      assert own(m.local);
    } else {
      OtherStepsKeepEntry(node, own, foreign, m, step);
    }
  }

  /** The commit of a fresh heartbeat makes the entry the current announcement. */
  lemma CommitMakesUpToDate(node: Node, own: Rule, foreign: Rule, m: Mesh)
    requires CanStep(node, m, Commit(Heartbeat)) && FreshHeartbeat(m)
    requires Sound(node, own, foreign, m) && OwnRule(node, own)
    ensures var t := Take(node, m, Commit(Heartbeat));
            UpToDate(node, t) && t.local == m.local && LocalId(node) in t.registry.agents
  {
  }

  lemma {:induction false} QuietRunFresh(node: Node, m: Mesh, steps: seq<Step>)
    requires FreshHeartbeat(m) && AllQuiet(steps)
    ensures FreshHeartbeat(RunFrom(node, m, steps)) && RunFrom(node, m, steps).local == m.local
  {
    if steps != [] {
      var front, step := steps[..|steps| - 1], steps[|steps| - 1];
      QuietRunFresh(node, m, front);
      var before := RunFrom(node, m, front);
      if CanStep(node, before, step) {
        QuietStepFresh(node, before, step);
        QuietStepReturned(node, before, step);
      }
    }
  }

  lemma {:induction false} QuietRunUpToDate(node: Node, own: Rule, foreign: Rule, m: Mesh, steps: seq<Step>)
    requires UpToDate(node, m) && AllQuiet(steps)
    requires Sound(node, own, foreign, m) && OwnRule(node, own) && ForeignRule(node, foreign)
    ensures UpToDate(node, RunFrom(node, m, steps)) && RunFrom(node, m, steps).local == m.local
  {
    if steps != [] {
      var front, step := steps[..|steps| - 1], steps[|steps| - 1];
      QuietRunUpToDate(node, own, foreign, m, front);
      RunStaysSound(node, own, foreign, m, front);
      var before := RunFrom(node, m, front);
      if CanStep(node, before, step) {
        QuietStepUpToDate(node, own, foreign, before, step);
      }
    }
  }

  /** From a sound state: a heartbeat that reads the announcement after all calls have returned,
      whatever quiet steps come in between, leaves the entry equal to it; and further quiet steps
      can expire the entry but not change it. */
  lemma TickConverges(node: Node, own: Rule, foreign: Rule, m: Mesh, mid: seq<Step>, rest: seq<Step>)
    requires Sound(node, own, foreign, m) && OwnRule(node, own) && ForeignRule(node, foreign)
    requires AllReturned(m) && AllQuiet(mid) && AllQuiet(rest)
    requires CanStep(node, m, ReadLocal)
    requires CanStep(node, RunFrom(node, Take(node, m, ReadLocal), mid), Commit(Heartbeat))
    ensures var done := Take(node, RunFrom(node, Take(node, m, ReadLocal), mid), Commit(Heartbeat));
            var later := RunFrom(node, done, rest);
            && LocalId(node) in done.registry.agents
            && done.registry.agents[LocalId(node)].payload == m.local
            && (LocalId(node) in later.registry.agents ==> later.registry.agents[LocalId(node)].payload == m.local)
  {
    ReadMakesFresh(node, m);
    var read := Take(node, m, ReadLocal);
    StepIsSound(node, own, foreign, m, ReadLocal);
    QuietRunFresh(node, read, mid);
    RunStaysSound(node, own, foreign, read, mid);
    var before := RunFrom(node, read, mid);
    CommitMakesUpToDate(node, own, foreign, before);
    StepIsSound(node, own, foreign, before, Commit(Heartbeat));
    QuietRunUpToDate(node, own, foreign, Take(node, before, Commit(Heartbeat)), rest);
  }

  /** After any run in which all update calls have returned, one complete heartbeat tick makes the
      local entry equal to the local announcement, and it stays equal as long as nothing new begins. */
  lemma HeartbeatConverges(node: Node, steps: seq<Step>, mid: seq<Step>, rest: seq<Step>)
    requires Valid(node.config)
    requires AllReturned(RunFrom(node, Init(node), steps)) && AllQuiet(mid) && AllQuiet(rest)
    requires CanStep(node, RunFrom(node, Init(node), steps), ReadLocal)
    requires CanStep(node, RunFrom(node, Take(node, RunFrom(node, Init(node), steps), ReadLocal), mid), Commit(Heartbeat))
    ensures var m := RunFrom(node, Init(node), steps);
            var done := Take(node, RunFrom(node, Take(node, m, ReadLocal), mid), Commit(Heartbeat));
            var later := RunFrom(node, done, rest);
            && LocalId(node) in done.registry.agents
            && done.registry.agents[LocalId(node)].payload == m.local
            && (LocalId(node) in later.registry.agents ==> later.registry.agents[LocalId(node)].payload == m.local)
  {
    OursIsOwnRule(node);
    ForeignIsForeignRule(node);
    RunIsSound(node, steps);
    TickConverges(node, OursOf(node), ForeignTo(node), RunFrom(node, Init(node), steps), mid, rest);
  }
}
