/** Shutdown: any number of calls and the final drop, interleaved with everything else. */
module MeshShutdown {
  import opened Wrappers
  import opened Types
  import opened Config
  import opened RegistrySpec
  import opened MeshSpec
  import opened MeshRuns
  import opened MeshStart
  import opened Ordering

  // ---------- one winner ----------

  predicate OneWinner(m: Mesh) {
    && m.history.wins <= 1
    && (m.history.wins == 1 <==> !m.shutdown.Running?)
    && m.history.removals <= 1
    && (m.shutdown.Running? || m.shutdown.Swapped? || m.shutdown.Sent? || m.shutdown.Unregistered?
        ==> m.history.removals == 0)
  }

  lemma StepKeepsOneWinner(node: Node, m: Mesh, step: Step)
    requires Possible(m, step) && OneWinner(m)
    ensures OneWinner(Take(node, m, step))
  {
  }

  lemma {:induction false} RunHasOneWinner(node: Node, m: Mesh, steps: seq<Step>)
    requires OneWinner(m)
    ensures OneWinner(RunFrom(node, m, steps))
  {
    if steps != [] {
      var front, step := steps[..|steps| - 1], steps[|steps| - 1];
      RunHasOneWinner(node, m, front);
      if CanStep(node, RunFrom(node, m, front), step) {
        StepKeepsOneWinner(node, RunFrom(node, m, front), step);
      }
    }
  }

  // ---------- the tasks ----------

  /** Only startup starts tasks, and it is over before a shutdown can begin. */
  predicate Started(node: Node, m: Mesh) {
    && (m.booted ==> Boot !in m.flights)
    && (!m.shutdown.Running? ==> m.booted)
    && (m.booted ==> !m.tasks.sweeper.Off?)
    && (m.booted && node.config.advertiseLocal ==> !m.tasks.heartbeat.Off?)
    && !m.tasks.listener.Off?
  }

  predicate HeartbeatJoined(m: Mesh) {
    m.shutdown.JoinedHeartbeat? || m.shutdown.JoinedSweeper? || m.shutdown == Finished(true)
  }

  predicate SweeperJoined(m: Mesh) {
    m.shutdown.JoinedSweeper? || m.shutdown == Finished(true)
  }

  /** A task that has been joined has ended, in order. */
  predicate JoinedHaveEnded(m: Mesh) {
    && (HeartbeatJoined(m) ==> m.tasks.heartbeat == Stopped(true) || m.tasks.heartbeat.Off?)
    && (SweeperJoined(m) ==> m.tasks.sweeper == Stopped(true) || m.tasks.sweeper.Off?)
    && (m.shutdown == Finished(true) ==> m.tasks.listener == Stopped(true) || m.tasks.listener.Off?)
  }

  lemma StepKeepsStarted(node: Node, m: Mesh, step: Step)
    requires Possible(m, step) && Started(node, m)
    ensures Started(node, Take(node, m, step))
  {
  }

  lemma StepKeepsJoined(node: Node, m: Mesh, step: Step)
    requires Possible(m, step) && Started(node, m) && JoinedHaveEnded(m)
    ensures JoinedHaveEnded(Take(node, m, step))
  {
  }

  lemma {:induction false} RunJoinsTasks(node: Node, m: Mesh, steps: seq<Step>)
    requires Started(node, m) && JoinedHaveEnded(m)
    ensures Started(node, RunFrom(node, m, steps)) && JoinedHaveEnded(RunFrom(node, m, steps))
  {
    if steps != [] {
      var front, step := steps[..|steps| - 1], steps[|steps| - 1];
      RunJoinsTasks(node, m, front);
      if CanStep(node, RunFrom(node, m, front), step) {
        StepKeepsStarted(node, RunFrom(node, m, front), step);
        StepKeepsJoined(node, RunFrom(node, m, front), step);
      }
    }
  }

  /** The heartbeat and the sweeper end by themselves only once the signal was sent, and a task that does not
      run is in the middle of nothing. */
  predicate EndsInOrder(m: Mesh) {
    && (m.tasks.heartbeat == Stopped(true) || m.tasks.sweeper == Stopped(true)
        ==> !m.shutdown.Running? && !m.shutdown.Swapped?)
    && (!m.tasks.heartbeat.Alive? ==> Heartbeat !in m.flights)
    && (!m.tasks.sweeper.Alive? ==> m.sweepClock == None)
    && (!m.tasks.listener.Alive? ==> m.pending == Nothing)
  }

  lemma StepEndsInOrder(node: Node, m: Mesh, step: Step)
    requires Possible(m, step) && EndsInOrder(m)
    ensures EndsInOrder(Take(node, m, step))
  {
  }

  lemma {:induction false} EndsInOrderFrom(node: Node, m: Mesh, steps: seq<Step>)
    requires EndsInOrder(m)
    ensures EndsInOrder(RunFrom(node, m, steps))
  {
    if steps != [] {
      var front, step := steps[..|steps| - 1], steps[|steps| - 1];
      EndsInOrderFrom(node, m, front);
      if CanStep(node, RunFrom(node, m, front), step) {
        StepEndsInOrder(node, RunFrom(node, m, front), step);
      }
    }
  }

  lemma TasksEndInOrder(node: Node, steps: seq<Step>)
    requires Valid(node.config)
    ensures EndsInOrder(RunFrom(node, Init(node), steps))
  {
    EndsInOrderFrom(node, Init(node), steps);
  }

  // ---------- the local entry ----------

  lemma RemovalRemoves(node: Node, own: Rule, foreign: Rule, m: Mesh)
    requires CanStep(node, m, RemoveLocal) && Sound(node, own, foreign, m) && OwnRule(node, own)
    ensures LocalId(node) !in NextRegistry(node, m, RemoveLocal).agents
  {
  }

  lemma InitForShutdown(node: Node)
    requires Valid(node.config)
    ensures OneWinner(Init(node)) && Started(node, Init(node)) && JoinedHaveEnded(Init(node))
  {
  }

  // ---------- the local entry after the removal ----------

  predicate TakesLocal(node: Node, step: Step) {
    step.CommitSweep? && LocalId(node) in step.stale
  }

  predicate SparedAfter(node: Node, m: Mesh, steps: seq<Step>, i: nat) {
    forall j: nat :: i < j < |steps| && Performed(node, m, steps, j) ==> !TakesLocal(node, steps[j])
  }

  /** A local copy is committed at position i, and no later sweep takes it. */
  predicate CommittedAt(node: Node, m: Mesh, steps: seq<Step>, i: nat)
    requires i < |steps|
  {
    steps[i].Commit? && Performed(node, m, steps, i) && SparedAfter(node, m, steps, i)
  }

  predicate Recommitted(node: Node, m: Mesh, steps: seq<Step>) {
    exists i: nat :: i < |steps| && CommittedAt(node, m, steps, i)
  }

  lemma SparedInFront(node: Node, m: Mesh, steps: seq<Step>, i: nat)
    requires i < |steps| - 1
    ensures var n := |steps| - 1;
            SparedAfter(node, m, steps, i)
            <==> SparedAfter(node, m, steps[..n], i) && !(Performed(node, m, steps, n) && TakesLocal(node, steps[n]))
  {
    var n := |steps| - 1;
    forall j: nat | j < n ensures Performed(node, m, steps, j) <==> Performed(node, m, steps[..n], j) {
      PerformedInFront(node, m, steps, j);
    }
    if SparedAfter(node, m, steps, i) {
      forall j: nat | i < j < n && Performed(node, m, steps[..n], j) ensures !TakesLocal(node, steps[..n][j]) {
        assert Performed(node, m, steps, j);
      }
    }
  }

  lemma CommittedInFront(node: Node, m: Mesh, steps: seq<Step>, i: nat)
    requires i < |steps| - 1
    ensures var n := |steps| - 1;
            CommittedAt(node, m, steps, i)
            <==> CommittedAt(node, m, steps[..n], i) && !(Performed(node, m, steps, n) && TakesLocal(node, steps[n]))
  {
    PerformedInFront(node, m, steps, i);
    SparedInFront(node, m, steps, i);
  }

  /** One step more: it commits, or something was committed before and it takes nothing away. */
  lemma RecommittedOneMore(node: Node, m: Mesh, steps: seq<Step>)
    requires steps != []
    ensures var n := |steps| - 1;
            Recommitted(node, m, steps)
            <==> (Performed(node, m, steps, n) && steps[n].Commit?)
                 || (Recommitted(node, m, steps[..n]) && !(Performed(node, m, steps, n) && TakesLocal(node, steps[n])))
  {
    var n := |steps| - 1;
    forall i: nat | i < n
      ensures CommittedAt(node, m, steps, i)
              <==> CommittedAt(node, m, steps[..n], i) && !(Performed(node, m, steps, n) && TakesLocal(node, steps[n]))
    {
      CommittedInFront(node, m, steps, i);
    }
    if Performed(node, m, steps, n) && steps[n].Commit? {
      assert CommittedAt(node, m, steps, n);
    }
    if Recommitted(node, m, steps[..n]) {
      var i: nat :| i < n && CommittedAt(node, m, steps[..n], i);
      assert CommittedAt(node, m, steps, i) || (Performed(node, m, steps, n) && TakesLocal(node, steps[n]));
    }
  }

  /** The removal is over or will not come. */
  predicate PastRemoval(m: Mesh) {
    !m.shutdown.Running? && !m.shutdown.Swapped? && !m.shutdown.Sent? && !m.shutdown.Unregistered?
  }

  lemma StepPastRemoval(node: Node, own: Rule, foreign: Rule, m: Mesh, step: Step)
    requires CanStep(node, m, step) && PastRemoval(m)
    requires Sound(node, own, foreign, m) && OwnRule(node, own) && ForeignRule(node, foreign)
    ensures PastRemoval(Take(node, m, step))
    ensures LocalId(node) in Take(node, m, step).registry.agents
            <==> step.Commit? || (LocalId(node) in m.registry.agents && !TakesLocal(node, step))
  {
    match step
    case Commit(actor) => assert own(m.flights[actor].copy);
    case CommitListener(_) => ListenerStepSparesLocal(node, own, foreign, m, step);
    case CommitSweep(stale) =>
      EvictAgents(m.registry, stale);
      assert LocalId(node) in Elems(stale) <==> LocalId(node) in stale;
    case _ =>
  }

  lemma {:induction false} PresentIffRecommitted(node: Node, own: Rule, foreign: Rule, m: Mesh, steps: seq<Step>)
    requires Sound(node, own, foreign, m) && OwnRule(node, own) && ForeignRule(node, foreign)
    requires PastRemoval(m) && LocalId(node) !in m.registry.agents
    ensures PastRemoval(RunFrom(node, m, steps))
    ensures LocalId(node) in RunFrom(node, m, steps).registry.agents <==> Recommitted(node, m, steps)
  {
    if steps != [] {
      var front, step := steps[..|steps| - 1], steps[|steps| - 1];
      PresentIffRecommitted(node, own, foreign, m, front);
      RunStaysSound(node, own, foreign, m, front);
      RecommittedOneMore(node, m, steps);
      var before := RunFrom(node, m, front);
      if CanStep(node, before, step) {
        StepPastRemoval(node, own, foreign, before, step);
      }
    }
  }

  /** The state right after the removal. */
  lemma RemovalState(node: Node, steps: seq<Step>)
    requires Valid(node.config) && CanStep(node, RunFrom(node, Init(node), steps), RemoveLocal)
    ensures var m := RunFrom(node, Init(node), steps + [RemoveLocal]);
            && Sound(node, OursOf(node), ForeignTo(node), m)
            && PastRemoval(m) && m.booted
            && LocalId(node) !in m.registry.agents
  {
    RunIsSound(node, steps);
    RunIsSound(node, steps + [RemoveLocal]);
    OursIsOwnRule(node);
    InitForShutdown(node);
    RunJoinsTasks(node, Init(node), steps);
    RunOneMore(node, Init(node), steps, RemoveLocal);
    RemovalRemoves(node, OursOf(node), ForeignTo(node), RunFrom(node, Init(node), steps));
  }

  /** In every run, whatever comes before and after the removal: the local agent is in the registry
      exactly if some local copy was committed since and no later sweep took it. */
  lemma EntryAfterRemovalIff(node: Node, steps: seq<Step>, rest: seq<Step>)
    requires Valid(node.config) && CanStep(node, RunFrom(node, Init(node), steps), RemoveLocal)
    ensures var removed := RunFrom(node, Init(node), steps + [RemoveLocal]);
            LocalId(node) in RunFrom(node, Init(node), steps + [RemoveLocal] + rest).registry.agents
            <==> Recommitted(node, removed, rest)
  {
    OursIsOwnRule(node);
    ForeignIsForeignRule(node);
    RemovalState(node, steps);
    RunOfConcat(node, Init(node), steps + [RemoveLocal], rest);
    PresentIffRecommitted(node, OursOf(node), ForeignTo(node), RunFrom(node, Init(node), steps + [RemoveLocal]), rest);
  }

  lemma {:induction false} RemovalTookPlace(node: Node, m: Mesh, steps: seq<Step>) returns (n: nat)
    requires !RemovalDone(m) && RemovalDone(RunFrom(node, m, steps))
    ensures n < |steps| && steps[n] == RemoveLocal && Performed(node, m, steps, n)
  {
    var front := steps[..|steps| - 1];
    if RemovalDone(RunFrom(node, m, front)) {
      n := RemovalTookPlace(node, m, front);
      PerformedInFront(node, m, steps, n);
    } else {
      n := |steps| - 1;
    }
  }

  /** The removal took place at position n, and since then what decides about the local entry is
      whether a local copy was committed and spared. */
  predicate RemovedAt(node: Node, steps: seq<Step>, n: nat)
    requires Valid(node.config)
  {
    && n < |steps| && steps[n] == RemoveLocal && Performed(node, Init(node), steps, n)
    && (LocalId(node) in RunFrom(node, Init(node), steps).registry.agents
        <==> Recommitted(node, RunFrom(node, Init(node), steps[..n + 1]), steps[n + 1..]))
  }

  /** After every run in which a shutdown got past the removal, so also after every one that returned
      Ok, the condition holds with the removal at some position. */
  lemma EntryAfterShutdownIff(node: Node, steps: seq<Step>)
    requires Valid(node.config) && RemovalDone(RunFrom(node, Init(node), steps))
    ensures exists n: nat :: RemovedAt(node, steps, n)
  {
    var n := RemovalTookPlace(node, Init(node), steps);
    RemovedBetween(node, steps, n);
  }

  lemma SplitAround(steps: seq<Step>, n: nat)
    requires n < |steps| && steps[n] == RemoveLocal
    ensures steps[..n + 1] == steps[..n] + [RemoveLocal]
    ensures steps == steps[..n] + [RemoveLocal] + steps[n + 1..]
  {
  }

  lemma RemovedBetween(node: Node, steps: seq<Step>, n: nat)
    requires Valid(node.config) && n < |steps| && steps[n] == RemoveLocal && Performed(node, Init(node), steps, n)
    ensures RemovedAt(node, steps, n)
  {
    SplitAround(steps, n);
    EntryAfterRemovalIff(node, steps[..n], steps[n + 1..]);
  }

  lemma ShutdownCounts(node: Node, steps: seq<Step>)
    requires Valid(node.config)
    ensures var m := RunFrom(node, Init(node), steps);
            && m.history.wins == (if m.shutdown.Running? then 0 else 1)
            && m.history.removals <= 1
            && (m.shutdown == Finished(true) ==>
                  && m.tasks.sweeper == Stopped(true)
                  && m.tasks.listener == Stopped(true)
                  && (node.config.advertiseLocal ==> m.tasks.heartbeat == Stopped(true))
                  && (!node.config.advertiseLocal ==> m.tasks.heartbeat == Off))
  {
    InitForShutdown(node);
    InitIsHeld(node);
    RunIsHeld(node, Init(node), steps);
    RunHasOneWinner(node, Init(node), steps);
    RunJoinsTasks(node, Init(node), steps);
  }

  /** After any run, with any number of shutdown calls and a final drop: exactly one of them won the
      swap once one of them happened, and the local agent was removed at most once; when the winner
      has returned Ok, all tasks that were started have stopped without a panic; and once the removal
      is over, the local entry is there exactly if some local copy was committed since and no later
      sweep took it. */
  lemma ShutdownIsOrderly(node: Node, steps: seq<Step>)
    requires Valid(node.config)
    ensures var m := RunFrom(node, Init(node), steps);
            && m.history.wins == (if m.shutdown.Running? then 0 else 1)
            && m.history.removals <= 1
            && (m.shutdown == Finished(true) ==>
                  && m.tasks.sweeper == Stopped(true)
                  && m.tasks.listener == Stopped(true)
                  && (node.config.advertiseLocal ==> m.tasks.heartbeat == Stopped(true))
                  && (!node.config.advertiseLocal ==> m.tasks.heartbeat == Off))
            && (RemovalDone(m) ==> exists n: nat :: RemovedAt(node, steps, n))
  {
    ShutdownCounts(node, steps);
    if RemovalDone(RunFrom(node, Init(node), steps)) {
      EntryAfterShutdownIff(node, steps);
    }
  }

  // ---------- what a caller can check at the removal ----------

  /** No update call and no heartbeat begins. */
  predicate NothingBegins(steps: seq<Step>) {
    forall i :: 0 <= i < |steps| ==> !steps[i].Mutate? && !steps[i].ReadLocal?
  }

  lemma {:induction false} NothingInFlight(node: Node, m: Mesh, steps: seq<Step>)
    requires m.flights == map[] && NothingBegins(steps)
    ensures RunFrom(node, m, steps).flights == map[] && !Recommitted(node, m, steps)
  {
    if steps != [] {
      NothingInFlight(node, m, steps[..|steps| - 1]);
      RecommittedOneMore(node, m, steps);
    }
  }

  /** The steps that bring a copy to the registry from wherever it is. */
  function Landing(actor: Actor, flight: Flight): seq<Step>
    requires flight.Mutated? ==> actor.Call?
  {
    match flight
    case Mutated => [] + [Sign(actor.number)] + [Announce(actor, true)] + [Stamp(actor, 0)] + [Commit(actor)]
    case Cloned(_) => [] + [Announce(actor, true)] + [Stamp(actor, 0)] + [Commit(actor)]
    case Announced(_) => [] + [Stamp(actor, 0)] + [Commit(actor)]
    case Stamped(_, _) => [] + [Commit(actor)]
  }

  /** A step after which the copy of the actor is where the step leads. */
  lemma FlightMoves(node: Node, m: Mesh, actor: Actor)
    requires actor in m.flights && (m.flights[actor].Mutated? ==> actor.Call?)
    ensures match m.flights[actor]
            case Mutated => var t := Take(node, m, Sign(actor.number));
                            actor in t.flights && t.flights[actor].Cloned?
            case Cloned(_) => var t := Take(node, m, Announce(actor, true));
                              actor in t.flights && t.flights[actor].Announced?
            case Announced(_) => var t := Take(node, m, Stamp(actor, 0));
                                 actor in t.flights && t.flights[actor].Stamped?
            case Stamped(_, _) => CanStep(node, m, Commit(actor))
  {
  }

  lemma UpdateLands(node: Node, m: Mesh, actor: Actor)
    requires actor in m.flights && m.flights[actor].Mutated? && actor.Call?
    ensures var steps := [] + [Sign(actor.number)] + [Announce(actor, true)] + [Stamp(actor, 0)];
            CanStep(node, RunFrom(node, m, steps), Commit(actor))
  {
    var s := [] + [Sign(actor.number)];
    var one := Take(node, m, Sign(actor.number));
    FlightMoves(node, m, actor);
    RunOneMore(node, m, [], Sign(actor.number));
    var two := Take(node, one, Announce(actor, true));
    FlightMoves(node, one, actor);
    RunOneMore(node, m, s, Announce(actor, true));
    FlightMoves(node, two, actor);
    RunOneMore(node, m, s + [Announce(actor, true)], Stamp(actor, 0));
    FlightMoves(node, Take(node, two, Stamp(actor, 0)), actor);
  }

  lemma CopyLands(node: Node, m: Mesh, actor: Actor)
    requires actor in m.flights && m.flights[actor].Cloned?
    ensures CanStep(node, RunFrom(node, m, [] + [Announce(actor, true)] + [Stamp(actor, 0)]), Commit(actor))
  {
    var one := Take(node, m, Announce(actor, true));
    FlightMoves(node, m, actor);
    RunOneMore(node, m, [], Announce(actor, true));
    FlightMoves(node, one, actor);
    RunOneMore(node, m, [] + [Announce(actor, true)], Stamp(actor, 0));
    FlightMoves(node, Take(node, one, Stamp(actor, 0)), actor);
  }

  lemma AnnouncedLands(node: Node, m: Mesh, actor: Actor)
    requires actor in m.flights && m.flights[actor].Announced?
    ensures CanStep(node, RunFrom(node, m, [] + [Stamp(actor, 0)]), Commit(actor))
  {
    FlightMoves(node, m, actor);
    RunOneMore(node, m, [], Stamp(actor, 0));
    FlightMoves(node, Take(node, m, Stamp(actor, 0)), actor);
  }

  lemma LandingLands(node: Node, m: Mesh, actor: Actor)
    requires actor in m.flights && (m.flights[actor].Mutated? ==> actor.Call?)
    ensures var steps := Landing(actor, m.flights[actor]);
            steps != [] && steps[|steps| - 1] == Commit(actor) && NothingBegins(steps)
            && Performed(node, m, steps, |steps| - 1)
  {
    var steps := Landing(actor, m.flights[actor]);
    var front := steps[..|steps| - 1];
    match m.flights[actor]
    case Stamped(_, _) =>
      FlightMoves(node, m, actor);
      assert front == [];
    case Announced(_) =>
      AnnouncedLands(node, m, actor);
      assert front == [] + [Stamp(actor, 0)];
    case Cloned(_) =>
      CopyLands(node, m, actor);
      assert front == [] + [Announce(actor, true)] + [Stamp(actor, 0)];
    case Mutated =>
      UpdateLands(node, m, actor);
      assert front == [] + [Sign(actor.number)] + [Announce(actor, true)] + [Stamp(actor, 0)];
  }

  /** No update call begins. */
  predicate NoUpdates(steps: seq<Step>) {
    forall i :: 0 <= i < |steps| ==> !steps[i].Mutate?
  }

  /** Nobody is left who could bring a copy to the registry. */
  predicate NoCarrier(m: Mesh) {
    m.flights == map[] && !m.tasks.heartbeat.Alive?
  }

  lemma {:induction false} NoCarrierStays(node: Node, m: Mesh, steps: seq<Step>)
    requires NoCarrier(m) && NoUpdates(steps)
    ensures NoCarrier(RunFrom(node, m, steps)) && !Recommitted(node, m, steps)
  {
    if steps != [] {
      NoCarrierStays(node, m, steps[..|steps| - 1]);
      RecommittedOneMore(node, m, steps);
    }
  }

  /** One more tick of a heartbeat that is still running. */
  function OneMoreTick(): seq<Step> {
    [] + [ReadLocal] + [Announce(Heartbeat, true)] + [Stamp(Heartbeat, 0)] + [Commit(Heartbeat)]
  }

  lemma OneMoreTickLands(node: Node, m: Mesh)
    requires m.tasks.heartbeat.Alive? && Heartbeat !in m.flights
    ensures Recommitted(node, m, OneMoreTick()) && NoUpdates(OneMoreTick())
  {
    var steps := OneMoreTick();
    HeartbeatTakesOff(node, m, 0);
    assert steps[..|steps| - 1] == [] + [ReadLocal] + [Announce(Heartbeat, true)] + [Stamp(Heartbeat, 0)];
    assert steps[|steps| - 1] == Commit(Heartbeat);
    assert Performed(node, m, steps, |steps| - 1);
    RecommittedOneMore(node, m, steps);
  }

  lemma LandingRecommits(node: Node, m: Mesh, actor: Actor)
    requires actor in m.flights && (m.flights[actor].Mutated? ==> actor.Call?)
    ensures Recommitted(node, m, Landing(actor, m.flights[actor]))
    ensures NothingBegins(Landing(actor, m.flights[actor])) && NoUpdates(Landing(actor, m.flights[actor]))
  {
    LandingLands(node, m, actor);
    RecommittedOneMore(node, m, Landing(actor, m.flights[actor]));
  }

  /** The removal leaves the copies on their way and the tasks as they are. */
  lemma RemovalKeepsCarriers(node: Node, steps: seq<Step>)
    requires Valid(node.config) && CanStep(node, RunFrom(node, Init(node), steps), RemoveLocal)
    ensures var before, after := RunFrom(node, Init(node), steps), RunFrom(node, Init(node), steps + [RemoveLocal]);
            && after.flights == before.flights && after.tasks == before.tasks
            && forall actor :: actor in after.flights && after.flights[actor].Mutated? ==> actor.Call?
  {
    RunOneMore(node, Init(node), steps, RemoveLocal);
    RunIsSound(node, steps + [RemoveLocal]);
  }

  /** The local agent stays away for good, whatever the tasks still do and as long as no update call begins
      after the removal, exactly if at the removal no copy was on its way and the heartbeat had ended. */
  lemma AbsentForGoodIff(node: Node, steps: seq<Step>)
    requires Valid(node.config) && CanStep(node, RunFrom(node, Init(node), steps), RemoveLocal)
    ensures (forall rest | NoUpdates(rest) ::
               LocalId(node) !in RunFrom(node, Init(node), steps + [RemoveLocal] + rest).registry.agents)
            <==> NoCarrier(RunFrom(node, Init(node), steps))
  {
    var m := RunFrom(node, Init(node), steps + [RemoveLocal]);
    RemovalKeepsCarriers(node, steps);
    if NoCarrier(m) {
      forall rest | NoUpdates(rest)
        ensures LocalId(node) !in RunFrom(node, Init(node), steps + [RemoveLocal] + rest).registry.agents
      {
        NoCarrierStays(node, m, rest);
        EntryAfterRemovalIff(node, steps, rest);
      }
    } else if m.flights == map[] {
      OneMoreTickLands(node, m);
      EntryAfterRemovalIff(node, steps, OneMoreTick());
    } else {
      var actor :| actor in m.flights;
      LandingRecommits(node, m, actor);
      EntryAfterRemovalIff(node, steps, Landing(actor, m.flights[actor]));
    }
  }

  /** If no heartbeat begins either, it stays away exactly if no copy was on its way at the removal. */
  lemma AbsentIfNothingBeginsIff(node: Node, steps: seq<Step>)
    requires Valid(node.config) && CanStep(node, RunFrom(node, Init(node), steps), RemoveLocal)
    ensures (forall rest | NothingBegins(rest) ::
               LocalId(node) !in RunFrom(node, Init(node), steps + [RemoveLocal] + rest).registry.agents)
            <==> RunFrom(node, Init(node), steps).flights == map[]
  {
    var m := RunFrom(node, Init(node), steps + [RemoveLocal]);
    RemovalKeepsCarriers(node, steps);
    if m.flights == map[] {
      forall rest | NothingBegins(rest)
        ensures LocalId(node) !in RunFrom(node, Init(node), steps + [RemoveLocal] + rest).registry.agents
      {
        NothingInFlight(node, m, rest);
        EntryAfterRemovalIff(node, steps, rest);
      }
    } else {
      var actor :| actor in m.flights;
      LandingRecommits(node, m, actor);
      EntryAfterRemovalIff(node, steps, Landing(actor, m.flights[actor]));
    }
  }

  // ---------- after the end ----------

  predicate NoneAlive(tasks: Tasks) {
    !tasks.heartbeat.Alive? && !tasks.sweeper.Alive? && !tasks.listener.Alive?
  }

  /** Shut down or dropped, with all tasks ended and nothing on its way. */
  predicate AtRest(m: Mesh) {
    (m.shutdown.Finished? || m.shutdown.Dropped?) && NoneAlive(m.tasks) && m.flights == map[]
  }

  lemma {:induction false} RestIsFinal(node: Node, m: Mesh, steps: seq<Step>)
    requires AtRest(m) && (NoUpdates(steps) || m.shutdown.Dropped?)
    ensures var t := RunFrom(node, m, steps);
            && AtRest(t) && (m.shutdown.Dropped? ==> t.shutdown.Dropped?)
            && t.registry == m.registry && t.history.published == m.history.published
  {
    if steps != [] {
      RestIsFinal(node, m, steps[..|steps| - 1]);
    }
  }

  /** What is on its way has somebody who carries it: the heartbeat's copy a running heartbeat, a call's
      copy a node that is not dropped, and startup's copy a node that starts. */
  predicate CarriersLive(m: Mesh) {
    && (Heartbeat in m.flights ==> m.tasks.heartbeat.Alive?)
    && (Boot in m.flights ==> !m.booted)
    && (m.shutdown.Dropped? ==> NoCalls(m))
    && (!m.shutdown.Running? ==> m.booted)
  }

  lemma StepKeepsCarriers(node: Node, m: Mesh, step: Step)
    requires Possible(m, step) && CarriersLive(m)
    ensures CarriersLive(Take(node, m, step))
  {
  }

  lemma {:induction false} RunKeepsCarriers(node: Node, m: Mesh, steps: seq<Step>)
    requires CarriersLive(m)
    ensures CarriersLive(RunFrom(node, m, steps))
  {
    if steps != [] {
      var front, step := steps[..|steps| - 1], steps[|steps| - 1];
      RunKeepsCarriers(node, m, front);
      if CanStep(node, RunFrom(node, m, front), step) {
        StepKeepsCarriers(node, RunFrom(node, m, front), step);
      }
    }
  }

  /** Without tasks and without calls under way, nothing is on its way. */
  lemma EndedMeansAtRest(node: Node, steps: seq<Step>)
    requires Valid(node.config)
    requires var m := RunFrom(node, Init(node), steps);
             (m.shutdown.Finished? || m.shutdown.Dropped?) && NoneAlive(m.tasks)
             && (NoCalls(m) || m.shutdown.Dropped?)
    ensures AtRest(RunFrom(node, Init(node), steps))
  {
    RunKeepsCarriers(node, Init(node), steps);
    var m := RunFrom(node, Init(node), steps);
    forall actor ensures actor !in m.flights {
      match actor
      case Boot =>
      case Heartbeat =>
      case Call(_) =>
    }
  }

  /** In every run: once a dropped node's tasks have ended, nothing changes its registry, sends an event or
      publishes any more. */
  lemma DroppedIsFinal(node: Node, steps: seq<Step>, rest: seq<Step>)
    requires Valid(node.config)
    requires var m := RunFrom(node, Init(node), steps); m.shutdown.Dropped? && NoneAlive(m.tasks)
    ensures var m, later := RunFrom(node, Init(node), steps), RunFrom(node, Init(node), steps + rest);
            later.registry == m.registry && later.history.published == m.history.published
  {
    EndedMeansAtRest(node, steps);
    RunOfConcat(node, Init(node), steps, rest);
    RestIsFinal(node, RunFrom(node, Init(node), steps), rest);
  }

  /** In every run: after a shutdown that returned Ok, with no update call under way and none to come,
      nothing changes the registry any more; a local entry that came back stays there. */
  lemma OkShutdownIsFinal(node: Node, steps: seq<Step>, rest: seq<Step>)
    requires Valid(node.config) && NoUpdates(rest)
    requires var m := RunFrom(node, Init(node), steps); m.shutdown == Finished(true) && NoCalls(m)
    ensures var m, later := RunFrom(node, Init(node), steps), RunFrom(node, Init(node), steps + rest);
            later.registry == m.registry && later.history.published == m.history.published
  {
    ShutdownIsOrderly(node, steps);
    EndedMeansAtRest(node, steps);
    RunOfConcat(node, Init(node), steps, rest);
    RestIsFinal(node, RunFrom(node, Init(node), steps), rest);
  }

  // ---------- a shutdown that leaves the local agent behind ----------

  /** The steps of a node that starts, whose heartbeat takes its time stamp before a shutdown call
      removes the local agent, and commits after it. */
  function BeforeRemoval(now: nat, seenAt: nat): seq<Step> {
    StartSteps(now)
    + ([] + [ReadLocal] + [Announce(Heartbeat, true)] + [Stamp(Heartbeat, seenAt)])
    + ([] + [SwapShutdown] + [SendShutdown] + [Unregister])
  }

  function AfterRemoval(): seq<Step> {
    [Commit(Heartbeat), StopTask(HeartbeatTask), StopTask(SweeperTask), StopTask(ListenerTask),
     Join(HeartbeatTask), Join(SweeperTask), Join(ListenerTask)]
  }

  lemma HeartbeatReads(node: Node, m: Mesh)
    requires m.tasks.heartbeat.Alive? && Heartbeat !in m.flights
    ensures CanStep(node, m, ReadLocal)
    ensures SameButHistory(Take(node, m, ReadLocal), m.(flights := m.flights[Heartbeat := Cloned(m.local)]))
  {
  }

  lemma HeartbeatAnnounces(node: Node, m: Mesh, copy: Announcement)
    requires Heartbeat in m.flights && m.flights[Heartbeat] == Cloned(copy)
    ensures CanStep(node, m, Announce(Heartbeat, true))
    ensures SameButHistory(Take(node, m, Announce(Heartbeat, true)),
                           m.(flights := m.flights[Heartbeat := Announced(copy)]))
  {
  }

  lemma HeartbeatStamps(node: Node, m: Mesh, copy: Announcement, seenAt: nat)
    requires Heartbeat in m.flights && m.flights[Heartbeat] == Announced(copy)
    ensures CanStep(node, m, Stamp(Heartbeat, seenAt))
    ensures SameButHistory(Take(node, m, Stamp(Heartbeat, seenAt)),
                           m.(flights := m.flights[Heartbeat := Stamped(copy, seenAt)]))
  {
  }

  lemma HeartbeatTakesOff(node: Node, m: Mesh, seenAt: nat)
    requires m.tasks.heartbeat.Alive? && Heartbeat !in m.flights
    ensures SameButHistory(RunFrom(node, m, [] + [ReadLocal] + [Announce(Heartbeat, true)] + [Stamp(Heartbeat, seenAt)]),
                           m.(flights := m.flights[Heartbeat := Stamped(m.local, seenAt)]))
  {
    var one := Take(node, m, ReadLocal);
    HeartbeatReads(node, m);
    RunOneMore(node, m, [], ReadLocal);
    var two := Take(node, one, Announce(Heartbeat, true));
    HeartbeatAnnounces(node, one, m.local);
    RunOneMore(node, m, [] + [ReadLocal], Announce(Heartbeat, true));
    HeartbeatStamps(node, two, m.local, seenAt);
    RunOneMore(node, m, [] + [ReadLocal] + [Announce(Heartbeat, true)], Stamp(Heartbeat, seenAt));
  }

  lemma ShutdownGetsToRemoval(node: Node, m: Mesh)
    requires m.booted && m.shutdown.Running?
    ensures SameButHistory(RunFrom(node, m, [] + [SwapShutdown] + [SendShutdown] + [Unregister]),
                           m.(shutdown := Unregistered))
  {
    var one := Take(node, m, SwapShutdown);
    assert SameButHistory(one, m.(shutdown := Swapped));
    RunOneMore(node, m, [], SwapShutdown);
    var two := Take(node, one, SendShutdown);
    assert SameButHistory(two, m.(shutdown := Sent));
    RunOneMore(node, m, [] + [SwapShutdown], SendShutdown);
    RunOneMore(node, m, [] + [SwapShutdown] + [SendShutdown], Unregister);
  }

  lemma ReachesRemoval(node: Node, now: nat, seenAt: nat)
    requires Valid(node.config) && node.config.advertiseLocal
    ensures var m := RunFrom(node, Init(node), BeforeRemoval(now, seenAt));
            && m.shutdown.Unregistered? && m.flights == map[Heartbeat := Stamped(Init(node).local, seenAt)]
            && m.tasks == Tasks(Alive, Alive, Alive) && m.sweepClock == None && m.pending == Nothing
  {
    var takeOff := [] + [ReadLocal] + [Announce(Heartbeat, true)] + [Stamp(Heartbeat, seenAt)];
    StartRun(node, now);
    var started := RunFrom(node, Init(node), StartSteps(now));
    HeartbeatTakesOff(node, started, seenAt);
    RunOfConcat(node, Init(node), StartSteps(now), takeOff);
    ShutdownGetsToRemoval(node, RunFrom(node, started, takeOff));
    RunOfConcat(node, Init(node), StartSteps(now) + takeOff, [] + [SwapShutdown] + [SendShutdown] + [Unregister]);
  }

  lemma LateCommit(node: Node, m: Mesh, copy: Announcement, seenAt: nat)
    requires node.config.advertiseLocal && m.shutdown.Unregistered?
    requires m.flights == map[Heartbeat := Stamped(copy, seenAt)]
    requires m.tasks == Tasks(Alive, Alive, Alive) && m.sweepClock == None && m.pending == Nothing
    ensures var t := RunFrom(node, m, [RemoveLocal] + AfterRemoval());
            t.shutdown == Finished(true) && copy.agentId in t.registry.agents
  {
    var removed := Take(node, m, RemoveLocal);
    var late := Take(node, removed, Commit(Heartbeat));
    var tail := [StopTask(HeartbeatTask), StopTask(SweeperTask), StopTask(ListenerTask),
                 Join(HeartbeatTask), Join(SweeperTask), Join(ListenerTask)];
    RunOneMore(node, m, [], RemoveLocal);
    RunOneMore(node, m, [] + [RemoveLocal], Commit(Heartbeat));
    assert RunFrom(node, m, [] + [RemoveLocal] + [Commit(Heartbeat)]) == late;
    RunOfConcat(node, m, [] + [RemoveLocal] + [Commit(Heartbeat)], tail);
    StopAndJoin(node, late);
    assert [] + [RemoveLocal] + [Commit(Heartbeat)] + tail == [RemoveLocal] + AfterRemoval();
  }

  /** Every node that advertises can be shut down with Ok and still have itself in its registry. */
  lemma LateHeartbeatSurvivesShutdown(node: Node, now: nat, seenAt: nat)
    requires Valid(node.config) && node.config.advertiseLocal
    ensures var t := RunFrom(node, Init(node), BeforeRemoval(now, seenAt) + ([RemoveLocal] + AfterRemoval()));
            t.shutdown == Finished(true) && LocalId(node) in t.registry.agents
  {
    ReachesRemoval(node, now, seenAt);
    LocalAnnouncementMeaning(node.config);
    FirstLocal(node);
    LateCommit(node, RunFrom(node, Init(node), BeforeRemoval(now, seenAt)), Init(node).local, seenAt);
    RunOfConcat(node, Init(node), BeforeRemoval(now, seenAt), [RemoveLocal] + AfterRemoval());
  }

  lemma StopOne(node: Node, m: Mesh, task: TaskName)
    requires StateOf(m.tasks, task).Alive? && Signalled(m.shutdown) && AtSelect(m, task)
    ensures CanStep(node, m, StopTask(task))
    ensures Take(node, m, StopTask(task)) == m.(tasks := WithTask(m.tasks, task, Stopped(true)))
  {
  }

  lemma StopAll(node: Node, m: Mesh)
    requires m.shutdown.LocalRemoved? && m.flights == map[]
    requires m.tasks == Tasks(Alive, Alive, Alive) && m.sweepClock == None && m.pending == Nothing
    ensures RunFrom(node, m, [] + [StopTask(HeartbeatTask)] + [StopTask(SweeperTask)] + [StopTask(ListenerTask)])
            == m.(tasks := Tasks(Stopped(true), Stopped(true), Stopped(true)))
  {
    var one := m.(tasks := Tasks(Stopped(true), Alive, Alive));
    var two := m.(tasks := Tasks(Stopped(true), Stopped(true), Alive));
    StopOne(node, m, HeartbeatTask);
    StopOne(node, one, SweeperTask);
    StopOne(node, two, ListenerTask);
    RunOneMore(node, m, [], StopTask(HeartbeatTask));
    RunOneMore(node, m, [] + [StopTask(HeartbeatTask)], StopTask(SweeperTask));
    RunOneMore(node, m, [] + [StopTask(HeartbeatTask)] + [StopTask(SweeperTask)], StopTask(ListenerTask));
  }

  lemma JoinOne(node: Node, m: Mesh, task: TaskName, next: Shutdown)
    requires StateOf(m.tasks, task) == Stopped(true)
    requires task.HeartbeatTask? ==> m.shutdown.LocalRemoved? && next.JoinedHeartbeat?
    requires task.SweeperTask? ==> m.shutdown.JoinedHeartbeat? && next.JoinedSweeper?
    requires task.ListenerTask? ==> m.shutdown.JoinedSweeper? && next == Finished(true)
    ensures CanStep(node, m, Join(task))
    ensures Take(node, m, Join(task)) == m.(shutdown := next)
  {
  }

  lemma JoinAll(node: Node, m: Mesh)
    requires m.shutdown.LocalRemoved? && m.tasks == Tasks(Stopped(true), Stopped(true), Stopped(true))
    ensures RunFrom(node, m, [] + [Join(HeartbeatTask)] + [Join(SweeperTask)] + [Join(ListenerTask)])
            == m.(shutdown := Finished(true))
  {
    JoinOne(node, m, HeartbeatTask, JoinedHeartbeat);
    JoinOne(node, m.(shutdown := JoinedHeartbeat), SweeperTask, JoinedSweeper);
    JoinOne(node, m.(shutdown := JoinedSweeper), ListenerTask, Finished(true));
    RunOneMore(node, m, [], Join(HeartbeatTask));
    RunOneMore(node, m, [] + [Join(HeartbeatTask)], Join(SweeperTask));
    RunOneMore(node, m, [] + [Join(HeartbeatTask)] + [Join(SweeperTask)], Join(ListenerTask));
  }

  /** All tasks stop, then all are joined; none of this touches the registry. */
  lemma StopAndJoin(node: Node, m: Mesh)
    requires m.shutdown.LocalRemoved? && m.flights == map[]
    requires m.tasks == Tasks(Alive, Alive, Alive) && m.sweepClock == None && m.pending == Nothing
    ensures var tail := [StopTask(HeartbeatTask), StopTask(SweeperTask), StopTask(ListenerTask),
                         Join(HeartbeatTask), Join(SweeperTask), Join(ListenerTask)];
            var t := RunFrom(node, m, tail);
            t.shutdown == Finished(true) && t.registry == m.registry
  {
    var stops := [] + [StopTask(HeartbeatTask)] + [StopTask(SweeperTask)] + [StopTask(ListenerTask)];
    var joins := [] + [Join(HeartbeatTask)] + [Join(SweeperTask)] + [Join(ListenerTask)];
    StopAll(node, m);
    JoinAll(node, RunFrom(node, m, stops));
    RunOfConcat(node, m, stops, joins);
    assert stops + joins == [StopTask(HeartbeatTask), StopTask(SweeperTask), StopTask(ListenerTask),
                             Join(HeartbeatTask), Join(SweeperTask), Join(ListenerTask)];
  }
}
