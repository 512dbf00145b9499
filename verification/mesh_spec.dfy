/** A running node as a system of interleaved steps. Each step is one lock scope or one action
    outside a lock of one of: startup, any number of update calls, the heartbeat, the sweeper, the
    listener, shutdown. */
module MeshSpec {
  import opened Wrappers
  import opened Types
  import opened Announcements
  import opened Signing
  import opened Config
  import opened RegistrySpec
  import opened ListenerSpec

  datatype Node = Node(config: ZeroConfConfig, mac: Mac)

  /** Who carries a copy of the local announcement to the registry. */
  datatype Actor = Boot | Heartbeat | Call(number: nat)

  /** How far the copy has come. `Mutated` is an update call between its two lock scopes. */
  datatype Flight =
    | Mutated
    | Cloned(copy: Announcement)
    | Announced(copy: Announcement)
    | Stamped(copy: Announcement, seenAt: nat)

  datatype Task = Off | Alive | Stopped(ok: bool)
  datatype TaskName = HeartbeatTask | SweeperTask | ListenerTask
  datatype Tasks = Tasks(heartbeat: Task, sweeper: Task, listener: Task)

  /** What the listener is about to do to the registry. */
  datatype Pending = Nothing | Upserting(announcement: Announcement, seenAt: nat) | Removing(fullname: string)

  /** How far the one shutdown that won has come. */
  datatype Shutdown =
    | Running | Swapped | Sent | Unregistered | LocalRemoved | JoinedHeartbeat | JoinedSweeper
    | Finished(ok: bool) | Dropped

  /** What happened so far; no step depends on it. */
  datatype History = History(
    held: set<Announcement>,
    published: set<Announcement>,
    wins: nat,
    removals: nat)

  datatype Mesh = Mesh(
    local: Announcement,
    flights: map<Actor, Flight>,
    booted: bool,
    registry: State,
    tasks: Tasks,
    sweepClock: Option<nat>,
    pending: Pending,
    shutdown: Shutdown,
    history: History)

  /** `PanicTask` is the early end of a task: by a panic, or because it was aborted. */
  datatype Step =
    | Mutate(number: nat, setter: Setter)
    | Sign(number: nat)
    | ReadLocal
    | Announce(actor: Actor, sent: bool)
    | Stamp(actor: Actor, now: nat)
    | Commit(actor: Actor)
    | ReadClock(now: nat)
    | CommitSweep(stale: seq<string>)
    | Deliver(event: ServiceEvent, now: nat)
    | CommitListener(victim: Option<string>)
    | StopTask(task: TaskName)
    | PanicTask(task: TaskName)
    | SwapShutdown
    | SendShutdown
    | Unregister
    | RemoveLocal
    | Join(task: TaskName)
    | Drop

  function LocalId(node: Node): string {
    node.config.agentId
  }

  /** The listener accepts it, as an announcement of the agent. */
  predicate HeardAs(node: Node, event: ServiceEvent, id: string) {
    && event.Resolved?
    && var h := Heard(node.mac, LocalId(node), node.config.sharedSecretAuth, event);
       h.Some? && h.value.agentId == id
  }

  function Resigned(node: Node, a: Announcement): Announcement {
    match node.config.sharedSecretAuth
    case None => a
    case Some(auth) => ApplyAuth(node.mac, a, auth)
  }

  // ---------- start ----------

  function Init(node: Node): Mesh
    requires Valid(node.config)
  {
    LocalAnnouncementMeaning(node.config);
    var local := Resigned(node, LocalAnnouncement(node.config).value);
    if node.config.advertiseLocal then
      Mesh(local, map[Boot := Announced(local)], false, EMPTY, Tasks(Off, Off, Alive), None, Nothing, Running,
           History({local}, {local}, 0, 0))
    else
      Mesh(local, map[], true, EMPTY, Tasks(Off, Alive, Alive), None, Nothing, Running,
           History({local}, {}, 0, 0))
  }

  // ---------- which steps are possible ----------

  function StateOf(tasks: Tasks, task: TaskName): Task {
    match task
    case HeartbeatTask => tasks.heartbeat
    case SweeperTask => tasks.sweeper
    case ListenerTask => tasks.listener
  }

  /** The task waits in its select, where it can see the shutdown signal. */
  predicate AtSelect(m: Mesh, task: TaskName) {
    match task
    case HeartbeatTask => Heartbeat !in m.flights
    case SweeperTask => m.sweepClock.None?
    case ListenerTask => m.pending.Nothing?
  }

  /** The signal that ends the tasks has been sent. */
  predicate Signalled(shutdown: Shutdown) {
    !shutdown.Running? && !shutdown.Swapped?
  }

  predicate Possible(m: Mesh, step: Step) {
    match step
    case Mutate(number, _) => m.booted && !m.shutdown.Dropped? && Call(number) !in m.flights
    case Sign(number) => Call(number) in m.flights && m.flights[Call(number)].Mutated?
    case ReadLocal => m.tasks.heartbeat.Alive? && Heartbeat !in m.flights
    case Announce(actor, _) => actor in m.flights && m.flights[actor].Cloned?
    case Stamp(actor, _) => actor in m.flights && m.flights[actor].Announced?
    case Commit(actor) => actor in m.flights && m.flights[actor].Stamped?
    case ReadClock(_) => m.tasks.sweeper.Alive? && m.sweepClock.None?
    case CommitSweep(_) => m.tasks.sweeper.Alive? && m.sweepClock.Some?
    case Deliver(_, _) => m.tasks.listener.Alive? && m.pending.Nothing?
    case CommitListener(_) => m.tasks.listener.Alive? && !m.pending.Nothing?
    case StopTask(task) => StateOf(m.tasks, task).Alive? && Signalled(m.shutdown) && AtSelect(m, task)
    case PanicTask(task) => StateOf(m.tasks, task).Alive?
    case SwapShutdown => m.booted && !m.shutdown.Dropped?
    case SendShutdown => m.shutdown.Swapped?
    case Unregister => m.shutdown.Sent?
    case RemoveLocal => m.shutdown.Unregistered?
    case Join(HeartbeatTask) => m.shutdown.LocalRemoved? && !m.tasks.heartbeat.Alive?
    case Join(SweeperTask) => m.shutdown.JoinedHeartbeat? && !m.tasks.sweeper.Alive?
    case Join(ListenerTask) => m.shutdown.JoinedSweeper? && !m.tasks.listener.Alive?
    case Drop => m.booted && (m.shutdown.Running? || m.shutdown.Finished?) && NoCalls(m)
  }

  predicate NoCalls(m: Mesh) {
    forall a :: a in m.flights ==> !a.Call?
  }

  /** The lock scope of the registry that a step goes through, if any. */
  function RegistryOp(node: Node, m: Mesh, step: Step): Option<Op>
    requires Possible(m, step)
  {
    match step
    case Commit(actor) => Some(Upsert(m.flights[actor].copy, m.flights[actor].seenAt, Local))
    case CommitSweep(stale) => Some(Sweep(m.sweepClock.value, stale))
    case CommitListener(victim) =>
      if m.pending.Upserting? then Some(Upsert(m.pending.announcement, m.pending.seenAt, Remote))
      else Some(RemoveNamed(m.pending.fullname, victim))
    case RemoveLocal =>
      if node.config.advertiseLocal then Some(Remove(m.local.agentId, Local, Graceful)) else None
    case _ => None
  }

  predicate CanStep(node: Node, m: Mesh, step: Step) {
    && Possible(m, step)
    && (RegistryOp(node, m, step).Some? ==> Enabled(m.registry, node.config.ttl, RegistryOp(node, m, step).value))
  }

  // ---------- what a step does ----------

  /** The announcement after a step: two steps write it. */
  function NextLocal(node: Node, m: Mesh, step: Step): Announcement {
    match step
    case Mutate(_, setter) => Changed(m.local, setter)
    case Sign(_) => Resigned(node, m.local)
    case _ => m.local
  }

  /** An update call that was rejected, or that runs on a node that does not advertise, returns
      without taking a second lock; one whose announcement could not be sent returns an error;
      the heartbeat goes on in that case. */
  function NextFlights(node: Node, m: Mesh, step: Step): map<Actor, Flight>
    requires Possible(m, step)
  {
    match step
    case Mutate(number, setter) =>
      if ApplySetter(m.local, setter).Ok? && node.config.advertiseLocal then m.flights[Call(number) := Mutated]
      else m.flights
    case Sign(number) => m.flights[Call(number) := Cloned(Resigned(node, m.local))]
    case ReadLocal => m.flights[Heartbeat := Cloned(m.local)]
    case Announce(actor, sent) =>
      if sent || actor.Heartbeat? then m.flights[actor := Announced(m.flights[actor].copy)]
      else m.flights - {actor}
    case Stamp(actor, now) => m.flights[actor := Stamped(m.flights[actor].copy, now)]
    case Commit(actor) => m.flights - {actor}
    case PanicTask(HeartbeatTask) => m.flights - {Heartbeat}
    case _ => m.flights
  }

  function WithTask(tasks: Tasks, task: TaskName, state: Task): Tasks {
    match task
    case HeartbeatTask => tasks.(heartbeat := state)
    case SweeperTask => tasks.(sweeper := state)
    case ListenerTask => tasks.(listener := state)
  }

  function NextTasks(m: Mesh, step: Step): Tasks {
    match step
    case Commit(Boot) => m.tasks.(heartbeat := Alive, sweeper := Alive)
    case Deliver(BrowseEnded, _) => m.tasks.(listener := Stopped(true))
    case StopTask(task) => WithTask(m.tasks, task, Stopped(true))
    case PanicTask(task) => WithTask(m.tasks, task, Stopped(false))
    case _ => m.tasks
  }

  function NextSweepClock(m: Mesh, step: Step): Option<nat> {
    match step
    case ReadClock(now) => Some(now)
    case CommitSweep(_) => None
    case PanicTask(SweeperTask) => None
    case _ => m.sweepClock
  }

  function NextPending(node: Node, m: Mesh, step: Step): Pending {
    match step
    case Deliver(event, now) =>
      (match event
       case Resolved(_, _, _, _) =>
         (match Heard(node.mac, LocalId(node), node.config.sharedSecretAuth, event)
          case Some(a) => Upserting(a, now)
          case None => Nothing)
       case Removed(fullname) => if fullname != InstanceName(node.config) then Removing(fullname) else Nothing
       case BrowseEnded => Nothing
       case Ignored => Nothing)
    case CommitListener(_) => Nothing
    case PanicTask(ListenerTask) => Nothing
    case _ => m.pending
  }

  /** A join of a task that panicked or was aborted ends the shutdown with an error. */
  function NextShutdown(m: Mesh, step: Step): Shutdown {
    match step
    case SwapShutdown => if m.shutdown.Running? then Swapped else m.shutdown
    case SendShutdown => Sent
    case Unregister => Unregistered
    case RemoveLocal => LocalRemoved
    case Join(task) =>
      if StateOf(m.tasks, task) == Stopped(false) then Finished(false)
      else (match task
            case HeartbeatTask => JoinedHeartbeat
            case SweeperTask => JoinedSweeper
            case ListenerTask => Finished(true))
    case Drop => Dropped
    case _ => m.shutdown
  }

  predicate RemovalDone(m: Mesh) {
    || m.shutdown.LocalRemoved? || m.shutdown.JoinedHeartbeat? || m.shutdown.JoinedSweeper?
    || m.shutdown.Finished?
  }

  function NextHistory(node: Node, m: Mesh, step: Step): History
    requires Possible(m, step)
  {
    var h := m.history;
    match step
    case Mutate(_, _) => h.(held := h.held + {NextLocal(node, m, step)})
    case Sign(_) => h.(held := h.held + {NextLocal(node, m, step)})
    case Announce(actor, sent) => if sent then h.(published := h.published + {m.flights[actor].copy}) else h
    case SwapShutdown => if m.shutdown.Running? then h.(wins := h.wins + 1) else h
    case RemoveLocal => h.(removals := h.removals + 1)
    case Drop => if m.shutdown.Running? then h.(wins := h.wins + 1) else h
    case _ => h
  }

  function NextRegistry(node: Node, m: Mesh, step: Step): State
    requires Possible(m, step)
  {
    match RegistryOp(node, m, step)
    case None => m.registry
    case Some(op) => Apply(m.registry, op)
  }

  function Take(node: Node, m: Mesh, step: Step): Mesh
    requires Possible(m, step)
  {
    Mesh(NextLocal(node, m, step),
         NextFlights(node, m, step),
         m.booted || step == Commit(Boot),
         NextRegistry(node, m, step),
         NextTasks(m, step),
         NextSweepClock(m, step),
         NextPending(node, m, step),
         NextShutdown(m, step),
         NextHistory(node, m, step))
  }

  // ---------- runs ----------

  /** The node after a sequence of steps; a step that is not possible is skipped. */
  function RunFrom(node: Node, m: Mesh, steps: seq<Step>): Mesh {
    if steps == [] then m
    else
      var before := RunFrom(node, m, steps[..|steps| - 1]);
      if CanStep(node, before, steps[|steps| - 1]) then Take(node, before, steps[|steps| - 1]) else before
  }

  /** The operation that a step performs on the registry, if it takes place and has one. */
  function OpsIn(node: Node, m: Mesh, step: Step): seq<Op> {
    if CanStep(node, m, step) && RegistryOp(node, m, step).Some? then [RegistryOp(node, m, step).value] else []
  }

  /** The operations that a run performs on the registry. */
  function OpsOf(node: Node, m: Mesh, steps: seq<Step>): seq<Op> {
    if steps == [] then []
    else
      var before := RunFrom(node, m, steps[..|steps| - 1]);
      var step := steps[|steps| - 1];
      OpsOf(node, m, steps[..|steps| - 1]) + OpsIn(node, before, step)
  }
}
