/** The node as an object. Its methods run from begin to end without interference; each is proved to
    be one uninterrupted run of the step system, so what holds in all runs holds for them. */
module MeshObject {
  import opened Wrappers
  import opened Types
  import opened Announcements
  import opened AnnouncementObject
  import opened Config
  import opened RegistrySpec
  import opened RegistryObject
  import opened MeshSpec
  import opened MeshRuns
  import opened MeshStart

  /** An idle node: started, and nothing is between two steps. */
  predicate Settled(m: Mesh) {
    m.booted && m.flights == map[] && m.sweepClock == None && m.pending == Nothing
  }

  /** The two lock scopes of an update call, then announce, time stamp and commit. */
  function UpdateSteps(setter: Setter, sent: bool, now: nat): seq<Step> {
    [] + [Mutate(0, setter)] + [Sign(0)] + [Announce(Call(0), sent)] + [Stamp(Call(0), now)] + [Commit(Call(0))]
  }

  function HeartbeatSteps(sent: bool, now: nat): seq<Step> {
    [] + [ReadLocal] + [Announce(Heartbeat, sent)] + [Stamp(Heartbeat, now)] + [Commit(Heartbeat)]
  }

  function SweepSteps(now: nat, stale: seq<string>): seq<Step> {
    [] + [ReadClock(now)] + [CommitSweep(stale)]
  }

  datatype Tick = Tick(sent: bool, now: nat)

  function TickSteps(ticks: seq<Tick>): seq<Step> {
    if ticks == [] then []
    else
      var tick := ticks[|ticks| - 1];
      TickSteps(ticks[..|ticks| - 1]) + HeartbeatSteps(tick.sent, tick.now)
  }

  lemma TickOneMore(ticks: seq<Tick>, i: nat)
    requires i < |ticks|
    ensures TickSteps(ticks[..i + 1]) == TickSteps(ticks[..i]) + HeartbeatSteps(ticks[i].sent, ticks[i].now)
  {
    assert ticks[..i + 1][..i] == ticks[..i];
  }

  function SweepAllSteps(clock: seq<nat>, order: seq<seq<string>>): seq<Step>
    requires |clock| == |order|
  {
    if clock == [] then []
    else
      var n := |clock| - 1;
      SweepAllSteps(clock[..n], order[..n]) + SweepSteps(clock[n], order[n])
  }

  lemma SweepOneMore(clock: seq<nat>, i: nat, order: seq<seq<string>>, evicted: seq<string>)
    requires i == |order| < |clock|
    ensures SweepAllSteps(clock[..i + 1], order + [evicted])
            == SweepAllSteps(clock[..i], order) + SweepSteps(clock[i], evicted)
  {
    assert clock[..i + 1][..i] == clock[..i];
    assert (order + [evicted])[..i] == order;
  }

  // ---------- what these runs come to ----------

  /** A rejected update, and any update on a node that does not advertise, ends after the first lock
      scope. */
  lemma ShortUpdateRun(node: Node, m: Mesh, setter: Setter, sent: bool, now: nat)
    requires Settled(m) && !m.shutdown.Dropped?
    requires ApplySetter(m.local, setter).Err? || !node.config.advertiseLocal
    ensures SameButHistory(RunFrom(node, m, UpdateSteps(setter, sent, now)), m.(local := Changed(m.local, setter)))
  {
    RunOneMore(node, m, [], Mutate(0, setter));
    var s1 := [] + [Mutate(0, setter)];
    RunOneMore(node, m, s1, Sign(0));
    RunOneMore(node, m, s1 + [Sign(0)], Announce(Call(0), sent));
    RunOneMore(node, m, s1 + [Sign(0)] + [Announce(Call(0), sent)], Stamp(Call(0), now));
    RunOneMore(node, m, s1 + [Sign(0)] + [Announce(Call(0), sent)] + [Stamp(Call(0), now)], Commit(Call(0)));
  }

  /** The announcement after both lock scopes. */
  function Renewed(node: Node, m: Mesh, setter: Setter): Announcement {
    Resigned(node, Changed(m.local, setter))
  }

  lemma SignedUpdateRun(node: Node, m: Mesh, setter: Setter)
    requires Settled(m) && !m.shutdown.Dropped?
    requires ApplySetter(m.local, setter).Ok? && node.config.advertiseLocal
    ensures SameButHistory(RunFrom(node, m, [] + [Mutate(0, setter)] + [Sign(0)]),
                           m.(local := Renewed(node, m, setter),
                              flights := map[Call(0) := Cloned(Renewed(node, m, setter))]))
  {
    RunOneMore(node, m, [], Mutate(0, setter));
    RunOneMore(node, m, [] + [Mutate(0, setter)], Sign(0));
  }

  lemma UnsentUpdateRun(node: Node, m: Mesh, setter: Setter, now: nat)
    requires Settled(m) && !m.shutdown.Dropped?
    requires ApplySetter(m.local, setter).Ok? && node.config.advertiseLocal
    ensures SameButHistory(RunFrom(node, m, UpdateSteps(setter, false, now)), m.(local := Renewed(node, m, setter)))
  {
    SignedUpdateRun(node, m, setter);
    var s2 := [] + [Mutate(0, setter)] + [Sign(0)];
    RunOneMore(node, m, s2, Announce(Call(0), false));
    RunOneMore(node, m, s2 + [Announce(Call(0), false)], Stamp(Call(0), now));
    RunOneMore(node, m, s2 + [Announce(Call(0), false)] + [Stamp(Call(0), now)], Commit(Call(0)));
  }

  lemma SentUpdateRun(node: Node, m: Mesh, setter: Setter, now: nat)
    requires Settled(m) && !m.shutdown.Dropped?
    requires ApplySetter(m.local, setter).Ok? && node.config.advertiseLocal
    ensures SameButHistory(RunFrom(node, m, UpdateSteps(setter, true, now)),
                           m.(local := Renewed(node, m, setter),
                              registry := ApplyUpsert(m.registry, Renewed(node, m, setter), now, Local)))
  {
    SignedUpdateRun(node, m, setter);
    var s2 := [] + [Mutate(0, setter)] + [Sign(0)];
    RunOneMore(node, m, s2, Announce(Call(0), true));
    RunOneMore(node, m, s2 + [Announce(Call(0), true)], Stamp(Call(0), now));
    RunOneMore(node, m, s2 + [Announce(Call(0), true)] + [Stamp(Call(0), now)], Commit(Call(0)));
  }

  lemma HeartbeatRun(node: Node, m: Mesh, sent: bool, now: nat)
    requires Settled(m) && m.tasks.heartbeat.Alive?
    ensures SameButHistory(RunFrom(node, m, HeartbeatSteps(sent, now)),
                           m.(registry := ApplyUpsert(m.registry, m.local, now, Local)))
  {
    RunOneMore(node, m, [], ReadLocal);
    RunOneMore(node, m, [] + [ReadLocal], Announce(Heartbeat, sent));
    RunOneMore(node, m, [] + [ReadLocal] + [Announce(Heartbeat, sent)], Stamp(Heartbeat, now));
    RunOneMore(node, m, [] + [ReadLocal] + [Announce(Heartbeat, sent)] + [Stamp(Heartbeat, now)], Commit(Heartbeat));
  }

  lemma SweepRun(node: Node, m: Mesh, now: nat, stale: seq<string>)
    requires Settled(m) && m.tasks.sweeper.Alive?
    requires Enabled(m.registry, node.config.ttl, Sweep(now, stale))
    ensures SameButHistory(RunFrom(node, m, SweepSteps(now, stale)),
                           m.(registry := Apply(m.registry, Sweep(now, stale))))
  {
    RunOneMore(node, m, [], ReadClock(now));
    RunOneMore(node, m, [] + [ReadClock(now)], CommitSweep(stale));
  }

  // ---------- shutdown ----------

  function RemovalSteps(): seq<Step> {
    [] + [SwapShutdown] + [SendShutdown] + [Unregister] + [RemoveLocal]
  }

  lemma StopRun(node: Node, m: Mesh, task: TaskName)
    requires Settled(m) && StateOf(m.tasks, task).Alive?
    ensures RunFrom(node, m, [] + [StopTask(task)])
            == if Signalled(m.shutdown) then m.(tasks := WithTask(m.tasks, task, Stopped(true))) else m
  {
    RunOneMore(node, m, [], StopTask(task));
  }

  /** The drop of a node that was not shut down aborts its tasks. */
  function DropSteps(running: bool): seq<Step> {
    if running then [] + [Step.Drop] + [PanicTask(HeartbeatTask)] + [PanicTask(SweeperTask)] + [PanicTask(ListenerTask)]
    else [] + [Step.Drop]
  }

  function Aborted(task: Task): Task {
    if task.Alive? then Stopped(false) else task
  }

  function AllAborted(tasks: Tasks): Tasks {
    Tasks(Aborted(tasks.heartbeat), Aborted(tasks.sweeper), Aborted(tasks.listener))
  }

  lemma AbortRun(node: Node, m: Mesh, task: TaskName)
    requires Settled(m)
    ensures var t := if CanStep(node, m, PanicTask(task)) then Take(node, m, PanicTask(task)) else m;
            t == m.(tasks := WithTask(m.tasks, task, Aborted(StateOf(m.tasks, task))))
  {
  }

  lemma FirstDrop(node: Node, m: Mesh)
    requires Settled(m) && m.shutdown.Running?
    ensures CanStep(node, m, Step.Drop)
    ensures Take(node, m, Step.Drop) == m.(shutdown := Dropped, history := m.history.(wins := m.history.wins + 1))
  {
  }

  lemma DropRun(node: Node, m: Mesh)
    requires Settled(m) && m.shutdown.Running?
    ensures RunFrom(node, m, DropSteps(true))
            == m.(shutdown := Dropped, tasks := AllAborted(m.tasks), history := m.history.(wins := m.history.wins + 1))
  {
    FirstDrop(node, m);
    var one := Take(node, m, Step.Drop);
    var two := one.(tasks := WithTask(one.tasks, HeartbeatTask, Aborted(one.tasks.heartbeat)));
    var three := two.(tasks := WithTask(two.tasks, SweeperTask, Aborted(two.tasks.sweeper)));
    RunOneMore(node, m, [], Step.Drop);
    AbortRun(node, one, HeartbeatTask);
    RunOneMore(node, m, [] + [Step.Drop], PanicTask(HeartbeatTask));
    AbortRun(node, two, SweeperTask);
    RunOneMore(node, m, [] + [Step.Drop] + [PanicTask(HeartbeatTask)], PanicTask(SweeperTask));
    AbortRun(node, three, ListenerTask);
    RunOneMore(node, m, [] + [Step.Drop] + [PanicTask(HeartbeatTask)] + [PanicTask(SweeperTask)], PanicTask(ListenerTask));
  }

  /** Waiting for a task: if it still runs it sees the signal and stops; then it is joined. */
  function JoinSteps(task: TaskName): seq<Step> {
    [] + [StopTask(task)] + [Join(task)]
  }

  lemma RemovalRun(node: Node, m: Mesh)
    requires Settled(m) && m.shutdown.Running?
    ensures SameButHistory(RunFrom(node, m, RemovalSteps()),
                           m.(shutdown := LocalRemoved,
                              registry := if node.config.advertiseLocal
                                          then ApplyRemove(m.registry, m.local.agentId, Local, Graceful) else m.registry))
  {
    RunOneMore(node, m, [], SwapShutdown);
    RunOneMore(node, m, [] + [SwapShutdown], SendShutdown);
    RunOneMore(node, m, [] + [SwapShutdown] + [SendShutdown], Unregister);
    RunOneMore(node, m, [] + [SwapShutdown] + [SendShutdown] + [Unregister], RemoveLocal);
  }

  function ShutdownSteps(): seq<Step> {
    RemovalSteps() + JoinSteps(HeartbeatTask) + JoinSteps(SweeperTask) + JoinSteps(ListenerTask)
  }

  /** The state of a task after it has been told to stop. */
  function Ended(task: Task): Task {
    if task.Alive? then Stopped(true) else task
  }

  predicate NoPanic(tasks: Tasks) {
    tasks.heartbeat != Stopped(false) && tasks.sweeper != Stopped(false) && tasks.listener != Stopped(false)
  }

  /** The task whose join comes next. */
  function Awaits(shutdown: Shutdown): Option<TaskName> {
    match shutdown
    case LocalRemoved => Some(HeartbeatTask)
    case JoinedHeartbeat => Some(SweeperTask)
    case JoinedSweeper => Some(ListenerTask)
    case _ => None
  }

  function AfterJoin(task: TaskName): Shutdown {
    match task
    case HeartbeatTask => JoinedHeartbeat
    case SweeperTask => JoinedSweeper
    case ListenerTask => Finished(true)
  }

  lemma JoinRun(node: Node, m: Mesh, task: TaskName)
    requires Settled(m) && Awaits(m.shutdown) == Some(task)
    ensures var state := Ended(StateOf(m.tasks, task));
            SameButHistory(RunFrom(node, m, JoinSteps(task)),
                           m.(tasks := WithTask(m.tasks, task, state),
                              shutdown := if state == Stopped(false) then Finished(false) else AfterJoin(task)))
  {
    RunOneMore(node, m, [], StopTask(task));
    RunOneMore(node, m, [] + [StopTask(task)], Join(task));
  }

  // ---------- the object ----------

  /** What startup puts on the link. */
  datatype Broadcast = Register(announcement: Announcement) | Goodbye(instanceName: string)

  lemma FirstNamed(node: Node)
    requires Valid(node.config)
    ensures LocalAnnouncement(node.config).Ok?
    ensures Init(node).local == Resigned(node, LocalAnnouncement(node.config).value)
    ensures Init(node).local.instanceName == InstanceName(node.config)
    ensures node.config.advertiseLocal ==>
              forall now :: RunFrom(node, Init(node), StartSteps(now)).local == Init(node).local
  {
    FirstLocal(node);
    RunIsSound(node, []);
    assert OursOf(node)(RunFrom(node, Init(node), []).local);
    if node.config.advertiseLocal {
      forall now ensures RunFrom(node, Init(node), StartSteps(now)).local == Init(node).local {
        StartRun(node, now);
      }
    }
  }

  class ZeroConfMesh {
    const node: Node
    const registry: Registry
    const localAgent: AgentAnnouncement
    var tasks: Tasks
    var shutdown: Shutdown
    var published: seq<Announcement>
    ghost var history: History

    ghost predicate IsValid()
      reads this, registry
    {
      registry.Valid() && registry.ttl == node.config.ttl
    }

    /** The node as a state of the step system, between two calls. */
    ghost function Value(): Mesh
      reads this, registry, localAgent
    {
      Mesh(localAgent.Clone(), map[], true, registry.Value(), tasks, None, Nothing, shutdown, history)
    }

    /** Startup once announcing has succeeded and the listener runs. */
    constructor FromConfig(node: Node, now: nat)
      requires Valid(node.config)
      ensures IsValid() && fresh(registry) && fresh(localAgent) && this.node == node
      ensures node.config.advertiseLocal ==>
                Value() == RunFrom(node, Init(node), StartSteps(now)) && published == [Value().local]
      ensures !node.config.advertiseLocal ==> Value() == Init(node) && published == []
      ensures tasks == Tasks(if node.config.advertiseLocal then Alive else Off, Alive, Alive) && shutdown == Running
    {
      FirstLocal(node);
      var local := new AgentAnnouncement(LocalAnnouncement(node.config).value);
      match node.config.sharedSecretAuth {
        case Some(auth) => local.ApplySharedSecretAuth(node.mac, auth);
        case None =>
      }
      assert local.Clone() == Init(node).local;
      var agents := new Registry(node.config.ttl);
      var sent: seq<Announcement> := [];
      if node.config.advertiseLocal {
        sent := [local.Clone()];
        var _ := agents.UpsertWithOriginAt(local.Clone(), now, Local);
        StartRun(node, now);
      }
      this.node := node;
      registry := agents;
      localAgent := local;
      tasks := Tasks(if node.config.advertiseLocal then Alive else Off, Alive, Alive);
      shutdown := Running;
      published := sent;
      history := if node.config.advertiseLocal then RunFrom(node, Init(node), StartSteps(now)).history
                 else Init(node).history;
    }

    /** Startup as its caller sees it. Where announcing fails, or the listener does not start, there is that
        error and no node; an announcement that has gone out by then is taken back by a goodbye. */
    static method Start(node: Node, announce: Outcome<()>, listen: Outcome<()>, now: nat)
      returns (r: Outcome<ZeroConfMesh>, sent: seq<Broadcast>)
      requires Valid(node.config)
      ensures node.config.advertiseLocal && announce.Err? ==> r == Err(announce.error) && sent == []
      ensures node.config.advertiseLocal && announce.Ok? && listen.Err? ==>
                r == Err(listen.error)
                && sent == [Register(Init(node).local), Goodbye(InstanceName(node.config))]
      ensures !node.config.advertiseLocal && listen.Err? ==> r == Err(listen.error) && sent == []
      ensures listen.Ok? && (node.config.advertiseLocal ==> announce.Ok?) ==>
                && r.Ok? && fresh(r.value) && fresh(r.value.registry) && fresh(r.value.localAgent)
                && r.value.IsValid() && r.value.node == node
                && r.value.Value() == (if node.config.advertiseLocal then RunFrom(node, Init(node), StartSteps(now))
                                       else Init(node))
                && r.value.tasks == Tasks(if node.config.advertiseLocal then Alive else Off, Alive, Alive)
                && r.value.published == (if node.config.advertiseLocal then [Init(node).local] else [])
                && sent == (if node.config.advertiseLocal then [Register(Init(node).local)] else [])
    {
      FirstNamed(node);
      var local := Resigned(node, LocalAnnouncement(node.config).value);
      sent := [];
      if node.config.advertiseLocal {
        var _ :- announce;
        sent := [Register(local)];
        if listen.Err? {
          return Err(listen.error), sent + [Goodbye(local.instanceName)];
        }
      } else {
        var _ :- listen;
      }
      var mesh := new ZeroConfMesh.FromConfig(node, now);
      r := Ok(mesh);
    }

    /** The second lock scope of an update and what follows it. */
    method RefreshLocalAgent(sent: bool, now: nat) returns (r: Outcome<()>)
      requires IsValid()
      modifies this`published, registry, localAgent
      ensures IsValid()
      ensures !node.config.advertiseLocal ==>
                r == Ok(()) && localAgent.Clone() == old(localAgent.Clone())
                && registry.Value() == old(registry.Value()) && published == old(published)
      ensures node.config.advertiseLocal ==>
                && localAgent.Clone() == Resigned(node, old(localAgent.Clone()))
                && r == (if sent then Ok(()) else Err(Mdns))
                && registry.Value() == (if sent then ApplyUpsert(old(registry.Value()), localAgent.Clone(), now, Local)
                                        else old(registry.Value()))
                && published == (if sent then old(published) + [localAgent.Clone()] else old(published))
    {
      if !node.config.advertiseLocal {
        return Ok(());
      }
      match node.config.sharedSecretAuth {
        case Some(auth) => localAgent.ApplySharedSecretAuth(node.mac, auth);
        case None =>
      }
      var announcement := localAgent.Clone();
      if !sent {
        return Err(Mdns);
      }
      published := published + [announcement];
      var _ := registry.UpsertWithOriginAt(announcement, now, Local);
      return Ok(());
    }

    /** An update call is one uninterrupted run of its steps. */
    method MutateLocalAgent(setter: Setter, sent: bool, now: nat) returns (r: Outcome<()>)
      requires IsValid() && !shutdown.Dropped?
      modifies this`published, this`history, registry, localAgent
      ensures IsValid()
      ensures Value() == RunFrom(node, old(Value()), UpdateSteps(setter, sent, now))
      ensures r == if Reply(old(localAgent.Clone()), setter).Err? then Reply(old(localAgent.Clone()), setter)
                   else if node.config.advertiseLocal && !sent then Err(Mdns) else Ok(())
      ensures published == if r.Ok? && node.config.advertiseLocal then old(published) + [localAgent.Clone()]
                           else old(published)
    {
      ghost var before := Value();
      ghost var after := RunFrom(node, before, UpdateSteps(setter, sent, now));
      if ApplySetter(before.local, setter).Err? || !node.config.advertiseLocal {
        ShortUpdateRun(node, before, setter, sent, now);
      } else if sent {
        SentUpdateRun(node, before, setter, now);
      } else {
        UnsentUpdateRun(node, before, setter, now);
      }
      r := localAgent.Apply(setter);
      if r.Ok? {
        r := RefreshLocalAgent(sent, now);
      }
      history := after.history;
    }

    /** One tick of the heartbeat is one uninterrupted run of its steps, whether or not the
        announcement could be sent. */
    method HeartbeatTick(sent: bool, now: nat)
      requires IsValid() && tasks.heartbeat.Alive?
      modifies this`published, this`history, registry
      ensures IsValid()
      ensures Value() == RunFrom(node, old(Value()), HeartbeatSteps(sent, now))
      ensures published == if sent then old(published) + [localAgent.Clone()] else old(published)
    {
      HeartbeatRun(node, Value(), sent, now);
      ghost var after := RunFrom(node, Value(), HeartbeatSteps(sent, now));
      var announcement := localAgent.Clone();
      if sent {
        published := published + [announcement];
      }
      var _ := registry.UpsertWithOriginAt(announcement, now, Local);
      history := after.history;
    }

    /** One tick of the sweeper. */
    method SweepTick(now: nat) returns (evicted: seq<AgentInfo>)
      requires IsValid() && tasks.sweeper.Alive?
      modifies this`history, registry
      ensures IsValid()
      ensures Enabled(old(registry.Value()), node.config.ttl, Sweep(now, Ids(evicted)))
      ensures Value() == RunFrom(node, old(Value()), SweepSteps(now, Ids(evicted)))
    {
      ghost var before := Value();
      evicted := registry.EvictStaleAt(now);
      SweepRun(node, before, now, Ids(evicted));
      history := RunFrom(node, before, SweepSteps(now, Ids(evicted))).history;
    }

    /** A task that waits sees the shutdown signal, if it was sent, and ends. */
    method StopOnSignal(task: TaskName)
      requires IsValid() && StateOf(tasks, task).Alive?
      modifies this`tasks
      ensures IsValid()
      ensures tasks == if Signalled(shutdown) then WithTask(old(tasks), task, Stopped(true)) else old(tasks)
      ensures Value() == RunFrom(node, old(Value()), [] + [StopTask(task)])
    {
      StopRun(node, Value(), task);
      if Signalled(shutdown) {
        tasks := WithTask(tasks, task, Stopped(true));
      }
    }

    /** The heartbeat's loop: the ticks before it looks for the shutdown signal, and its end if the signal
        was sent. */
    method HeartbeatLoop(ticks: seq<Tick>)
      requires IsValid() && tasks.heartbeat.Alive?
      modifies this`tasks, this`published, this`history, registry
      ensures IsValid()
      ensures tasks == if Signalled(shutdown) then old(tasks).(heartbeat := Stopped(true)) else old(tasks)
      ensures Value() == RunFrom(node, old(Value()), TickSteps(ticks) + ([] + [StopTask(HeartbeatTask)]))
    {
      var i := 0;
      while i < |ticks|
        invariant 0 <= i <= |ticks|
        invariant IsValid() && tasks == old(tasks)
        invariant Value() == RunFrom(node, old(Value()), TickSteps(ticks[..i]))
      {
        RunOfConcat(node, old(Value()), TickSteps(ticks[..i]), HeartbeatSteps(ticks[i].sent, ticks[i].now));
        TickOneMore(ticks, i);
        HeartbeatTick(ticks[i].sent, ticks[i].now);
        i := i + 1;
      }
      assert ticks[..i] == ticks;
      RunOfConcat(node, old(Value()), TickSteps(ticks), [] + [StopTask(HeartbeatTask)]);
      StopOnSignal(HeartbeatTask);
    }

    /** The sweeper's loop: the sweeps before it looks for the shutdown signal, and its end if the signal
        was sent. */
    method SweeperLoop(clock: seq<nat>) returns (ghost order: seq<seq<string>>)
      requires IsValid() && tasks.sweeper.Alive?
      modifies this`tasks, this`history, registry
      ensures IsValid() && |order| == |clock|
      ensures tasks == if Signalled(shutdown) then old(tasks).(sweeper := Stopped(true)) else old(tasks)
      ensures Value() == RunFrom(node, old(Value()), SweepAllSteps(clock, order) + ([] + [StopTask(SweeperTask)]))
    {
      order := [];
      var i := 0;
      while i < |clock|
        invariant 0 <= i <= |clock| && |order| == i
        invariant IsValid() && tasks == old(tasks)
        invariant Value() == RunFrom(node, old(Value()), SweepAllSteps(clock[..i], order))
      {
        var evicted := SweepTick(clock[i]);
        RunOfConcat(node, old(Value()), SweepAllSteps(clock[..i], order), SweepSteps(clock[i], Ids(evicted)));
        SweepOneMore(clock, i, order, Ids(evicted));
        order := order + [Ids(evicted)];
        i := i + 1;
      }
      assert clock[..i] == clock;
      RunOfConcat(node, old(Value()), SweepAllSteps(clock, order), [] + [StopTask(SweeperTask)]);
      StopOnSignal(SweeperTask);
    }

    /** Waits for one task; a panic of the task is an error. */
    method JoinTask(task: TaskName) returns (r: Outcome<()>)
      requires Awaits(shutdown) == Some(task)
      modifies this`tasks, this`shutdown, this`history
      ensures Value() == RunFrom(node, old(Value()), JoinSteps(task))
      ensures tasks == WithTask(old(tasks), task, Ended(StateOf(old(tasks), task)))
      ensures if StateOf(old(tasks), task) == Stopped(false)
              then r == Err(TaskJoin) && shutdown == Finished(false)
              else r == Ok(()) && shutdown == AfterJoin(task)
    {
      JoinRun(node, Value(), task);
      ghost var after := RunFrom(node, Value(), JoinSteps(task));
      var state := Ended(StateOf(tasks, task));
      tasks := WithTask(tasks, task, state);
      if state == Stopped(false) {
        shutdown := Finished(false);
        r := Err(TaskJoin);
      } else {
        shutdown := AfterJoin(task);
        r := Ok(());
      }
      history := after.history;
    }

    /** The registry without the local agent, if the node advertises it. */
    ghost function Removed(s: State): State
      reads localAgent
    {
      if node.config.advertiseLocal then ApplyRemove(s, localAgent.agentId, Local, Graceful) else s
    }

    /** The swap, the signal, the removal of the local agent. */
    method RemoveLocalAgent()
      requires IsValid() && shutdown.Running?
      modifies this`shutdown, this`history, registry
      ensures IsValid() && shutdown == LocalRemoved
      ensures registry.Value() == Removed(old(registry.Value()))
      ensures Value() == RunFrom(node, old(Value()), RemovalSteps())
    {
      RemovalRun(node, Value());
      ghost var after := RunFrom(node, Value(), RemovalSteps());
      shutdown := LocalRemoved;
      if node.config.advertiseLocal {
        var announcement := localAgent.Clone();
        var _ := registry.RemoveWithOrigin(announcement.agentId, Local, Graceful);
      }
      history := after.history;
    }

    /** The first call does the work, every later call does nothing. Without interference the local
        agent is removed and nothing else happens to the registry; the call returns Ok exactly when no
        task had panicked, and has then gone through the whole shutdown. */
    method Shutdown() returns (r: Outcome<()>)
      requires IsValid()
      modifies this`tasks, this`shutdown, this`history, registry
      ensures IsValid()
      ensures !old(shutdown).Running? ==> r == Ok(()) && Value() == old(Value())
      ensures old(shutdown).Running? ==>
                && registry.Value() == Removed(old(registry.Value()))
                && (r.Ok? <==> NoPanic(old(tasks)))
                && (r.Err? ==> r == Err(TaskJoin) && shutdown == Finished(false))
                && (r.Ok? ==> Value() == RunFrom(node, old(Value()), ShutdownSteps()) && shutdown == Finished(true))
    {
      if !shutdown.Running? {
        return Ok(());
      }
      ghost var before := Value();
      RemoveLocalAgent();
      RemovalRun(node, before);
      var _ :- JoinTask(HeartbeatTask);
      RunOfConcat(node, before, RemovalSteps(), JoinSteps(HeartbeatTask));
      var _ :- JoinTask(SweeperTask);
      RunOfConcat(node, before, RemovalSteps() + JoinSteps(HeartbeatTask), JoinSteps(SweeperTask));
      var _ :- JoinTask(ListenerTask);
      RunOfConcat(node, before, RemovalSteps() + JoinSteps(HeartbeatTask) + JoinSteps(SweeperTask), JoinSteps(ListenerTask));
      return Ok(());
    }

    /** The end of the object: a node that was not shut down aborts its tasks, one that was does nothing. */
    method Drop()
      requires IsValid() && (shutdown.Running? || shutdown.Finished?)
      modifies this`tasks, this`shutdown, this`history
      ensures IsValid() && shutdown == Dropped
      ensures tasks == if old(shutdown).Running? then AllAborted(old(tasks)) else old(tasks)
      ensures history.wins == old(history.wins) + (if old(shutdown).Running? then 1 else 0)
      ensures Value() == RunFrom(node, old(Value()), DropSteps(old(shutdown).Running?))
    {
      ghost var before := Value();
      if shutdown.Running? {
        DropRun(node, before);
        tasks := AllAborted(tasks);
      } else {
        RunOneMore(node, before, [], Step.Drop);
      }
      history := RunFrom(node, before, DropSteps(shutdown.Running?)).history;
      shutdown := Dropped;
    }
  }
}
