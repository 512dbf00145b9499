/** The timing of a registry's operations, carried over to whole runs of a node. */
module MeshTiming {
  import opened Wrappers
  import opened Types
  import opened ListenerSpec
  import opened Ordering
  import opened Config
  import opened RegistrySpec
  import opened Timing
  import opened MeshSpec
  import opened MeshRuns
  import opened MeshStart
  import opened MeshConvergence
  import Observers

  /** Each operation with the time at which it committed. */
  function Timestamped(ops: seq<Op>, times: seq<nat>): seq<Timed>
    requires |times| == |ops|
  {
    seq(|ops|, i requires 0 <= i < |ops| => Timed(ops[i], times[i]))
  }

  lemma {:induction false} OpsOfTimestamped(ops: seq<Op>, times: seq<nat>)
    requires |times| == |ops|
    ensures Ops(Timestamped(ops, times)) == ops
  {
    if ops != [] {
      var n := |ops| - 1;
      OpsOfTimestamped(ops[..n], times[..n]);
      assert Timestamped(ops, times)[..n] == Timestamped(ops[..n], times[..n]);
      assert ops == ops[..n] + [ops[n]];
    }
  }

  predicate IsExpiryOf(e: Event, id: string) {
    e.Left? && e.reason == Expired && Subject(e) == id
  }

  predicate NeverExpired(log: seq<Event>, id: string) {
    forall i :: 0 <= i < |log| ==> !IsExpiryOf(log[i], id)
  }

  predicate SparesBySweep(op: Op, id: string) {
    && (op.Sweep? ==> id !in op.stale)
    && (op.Remove? ==> op.reason == Graceful)
  }

  lemma OpSpares(s: State, ttl: nat, op: Op, id: string)
    requires Keyed(s.agents) && Enabled(s, ttl, op) && SparesBySweep(op, id) && NeverExpired(s.log, id)
    ensures NeverExpired(Apply(s, op).log, id)
  {
    if op.Sweep? {
      assert forall x :: x in op.stale <==> x in Elems(op.stale);
      EvictLog(s, op.stale);
      var left := Departures(s.agents, op.stale);
      forall i | 0 <= i < |left| ensures !IsExpiryOf(left[i], id) {
        assert op.stale[i] in op.stale;
      }
    }
  }

  lemma {:induction false} RunSpares(ttl: nat, ops: seq<Op>, id: string)
    requires Legal(ttl, ops)
    requires forall i :: 0 <= i < |ops| ==> SparesBySweep(ops[i], id)
    ensures NeverExpired(After(ops).log, id)
  {
    if ops != [] {
      var front := ops[..|ops| - 1];
      RunSpares(ttl, front, id);
      LogRefinesRegistry(front);
      OpSpares(After(front), ttl, ops[|ops| - 1], id);
    }
  }

  /** A node removes its own agent gracefully only. */
  lemma {:induction false} RemovalsAreGraceful(node: Node, m: Mesh, steps: seq<Step>)
    ensures forall i :: 0 <= i < |OpsOf(node, m, steps)| && OpsOf(node, m, steps)[i].Remove? ==>
                          OpsOf(node, m, steps)[i].reason == Graceful
  {
    if steps != [] {
      RemovalsAreGraceful(node, m, steps[..|steps| - 1]);
    }
  }

  /** In every run of a node, whatever the interleaving: when commits follow the timing with delay
      d, and the TTL covers one heartbeat interval and twice d, no sweep ever reports the local
      agent as expired. */
  lemma LocalNeverExpires(node: Node, steps: seq<Step>, times: seq<nat>, d: nat)
    requires Valid(node.config)
    requires |times| == |OpsOf(node, Init(node), steps)|
    requires Timely(Timestamped(OpsOf(node, Init(node), steps), times), LocalId(node), node.config.heartbeatInterval, d)
    requires node.config.heartbeatInterval + 2 * d <= node.config.ttl
    ensures NeverExpired(RunFrom(node, Init(node), steps).registry.log, LocalId(node))
  {
    var ops, ttl, id := OpsOf(node, Init(node), steps), node.config.ttl, LocalId(node);
    var run := Timestamped(ops, times);
    MeshRunIsRegistryRun(node, steps);
    OpsOfTimestamped(ops, times);
    RemovalsAreGraceful(node, Init(node), steps);
    forall i | 0 <= i < |ops| ensures SparesBySweep(ops[i], id) {
      if ops[i].Sweep? {
        SweepSparesLocal(ttl, run, id, node.config.heartbeatInterval, d, i);
      }
    }
    RunSpares(ttl, ops, id);
  }

  // ---------- and exactly then ----------

  /** The steps of a node that starts, and whose sweeper comes as late as the timing allows. */
  function SlowSteps(node: Node, clock: nat): seq<Step> {
    StartSteps(0) + [ReadClock(clock)] + [CommitSweep([LocalId(node)])]
  }

  lemma BootStamps(node: Node, m: Mesh, now: nat)
    requires m.flights == map[Boot := Announced(m.local)]
    ensures CanStep(node, m, Stamp(Boot, now)) && OpsIn(node, m, Stamp(Boot, now)) == []
    ensures Take(node, m, Stamp(Boot, now)) == m.(flights := map[Boot := Stamped(m.local, now)])
  {
  }

  lemma BootCommits(node: Node, m: Mesh, now: nat)
    requires m.flights == map[Boot := Stamped(m.local, now)]
    ensures OpsIn(node, m, Commit(Boot)) == [Upsert(m.local, now, Local)]
  {
  }

  lemma BootOps(node: Node, m: Mesh, now: nat)
    requires m.flights == map[Boot := Announced(m.local)]
    ensures OpsOf(node, m, StartSteps(now)) == [Upsert(m.local, now, Local)]
  {
    BootStamps(node, m, now);
    RunOneMore(node, m, [], Stamp(Boot, now));
    OpsOneMore(node, m, [], Stamp(Boot, now));
    BootCommits(node, m.(flights := map[Boot := Stamped(m.local, now)]), now);
    OpsOneMore(node, m, [] + [Stamp(Boot, now)], Commit(Boot));
    assert OpsOf(node, m, []) == [];
  }

  lemma SweeperReads(node: Node, m: Mesh, clock: nat)
    requires m.tasks.sweeper.Alive? && m.sweepClock.None?
    ensures CanStep(node, m, ReadClock(clock)) && OpsIn(node, m, ReadClock(clock)) == []
    ensures Take(node, m, ReadClock(clock)) == m.(sweepClock := Some(clock))
  {
  }

  lemma SweeperCommits(node: Node, m: Mesh, stale: seq<string>)
    requires m.tasks.sweeper.Alive? && m.sweepClock.Some?
    requires Enabled(m.registry, node.config.ttl, Sweep(m.sweepClock.value, stale))
    ensures CanStep(node, m, CommitSweep(stale))
    ensures OpsIn(node, m, CommitSweep(stale)) == [Sweep(m.sweepClock.value, stale)]
    ensures Take(node, m, CommitSweep(stale)).registry == Apply(m.registry, Sweep(m.sweepClock.value, stale))
  {
  }

  lemma LocalIdOfFirst(node: Node)
    requires Valid(node.config)
    ensures Init(node).local.agentId == LocalId(node)
  {
    RunIsSound(node, []);
    assert OursOf(node)(RunFrom(node, Init(node), []).local);
  }

  lemma SlowSweepEnabled(s: State, a: Announcement, ttl: nat, clock: nat)
    requires s == ApplyUpsert(EMPTY, a, 0, Local) && ttl < clock
    ensures Keyed(s.agents) && Enabled(s, ttl, Sweep(clock, [a.agentId]))
  {
    assert s.agents == map[a.agentId := AgentInfo(a, 0)];
    assert Elems([a.agentId]) == StaleIds(s.agents, clock, ttl);
  }

  /** The operations of such a run. */
  function SlowOps(a: Announcement, clock: nat): seq<Op> {
    [Upsert(a, 0, Local)] + [Sweep(clock, [a.agentId])]
  }

  /** A node that has announced, starts, and sweeps past the TTL: one upsert and one sweep, which takes the
      local agent. */
  lemma SlowRunOf(node: Node, m: Mesh, clock: nat)
    requires Booting(m) && m.flights == map[Boot := Announced(m.local)]
    requires m.local.agentId == LocalId(node) && node.config.ttl < clock
    ensures OpsOf(node, m, SlowSteps(node, clock)) == SlowOps(m.local, clock)
    ensures !NeverExpired(RunFrom(node, m, SlowSteps(node, clock)).registry.log, LocalId(node))
  {
    var started := RunFrom(node, m, StartSteps(0));
    BootRun(node, m, 0);
    BootOps(node, m, 0);
    SlowSweepEnabled(started.registry, m.local, node.config.ttl, clock);
    SweepAfterStart(node, m, clock, started);
    SweptShows(started.registry, node.config.ttl, clock, [LocalId(node)], LocalId(node));
  }

  lemma SweepAfterStart(node: Node, m: Mesh, clock: nat, started: Mesh)
    requires started == RunFrom(node, m, StartSteps(0)) && started.tasks.sweeper.Alive? && started.sweepClock.None?
    requires Enabled(started.registry, node.config.ttl, Sweep(clock, [LocalId(node)]))
    ensures OpsOf(node, m, SlowSteps(node, clock)) == OpsOf(node, m, StartSteps(0)) + [Sweep(clock, [LocalId(node)])]
    ensures RunFrom(node, m, SlowSteps(node, clock)).registry
            == Apply(started.registry, Sweep(clock, [LocalId(node)]))
  {
    var start, sweep := StartSteps(0), CommitSweep([LocalId(node)]);
    SweeperReads(node, started, clock);
    RunOneMore(node, m, start, ReadClock(clock));
    OpsOneMore(node, m, start, ReadClock(clock));
    assert OpsOf(node, m, start) + [] == OpsOf(node, m, start);
    SweeperCommits(node, started.(sweepClock := Some(clock)), [LocalId(node)]);
    RunOneMore(node, m, start + [ReadClock(clock)], sweep);
    OpsOneMore(node, m, start + [ReadClock(clock)], sweep);
  }

  lemma SlowRunIsTimely(ttl: nat, a: Announcement, H: nat, d: nat)
    requires ttl < H + 2 * d
    ensures var clock := H + 2 * d;
            |SlowOps(a, clock)| == 2 && Timely(Timestamped(SlowOps(a, clock), [d, clock]), a.agentId, H, d)
  {
    var clock := H + 2 * d;
    SlowRunEvicts(ttl, a, H, d);
    assert Timestamped(SlowOps(a, clock), [d, clock]) == SlowRun(a, H, d);
  }

  /** A run in which commits take at most d and the heartbeat's commits are on time. */
  predicate TimelyRun(node: Node, m: Mesh, steps: seq<Step>, times: seq<nat>, d: nat) {
    && |times| == |OpsOf(node, m, steps)|
    && Timely(Timestamped(OpsOf(node, m, steps), times), LocalId(node), node.config.heartbeatInterval, d)
  }

  predicate SparesLocal(node: Node, m: Mesh, steps: seq<Step>) {
    NeverExpired(RunFrom(node, m, steps).registry.log, LocalId(node))
  }

  /** With a TTL below one interval and twice the delay, a timely run from startup expires the local agent. */
  lemma SlowNodeExpires(node: Node, d: nat)
    requires Valid(node.config) && node.config.advertiseLocal
    requires node.config.ttl < node.config.heartbeatInterval + 2 * d
    ensures var clock := node.config.heartbeatInterval + 2 * d;
            && TimelyRun(node, Init(node), SlowSteps(node, clock), [d, clock], d)
            && !SparesLocal(node, Init(node), SlowSteps(node, clock))
  {
    var clock := node.config.heartbeatInterval + 2 * d;
    LocalIdOfFirst(node);
    FirstLocal(node);
    SlowRunOf(node, Init(node), clock);
    SlowOpsAreTimely(node, Init(node), SlowSteps(node, clock), d);
  }

  lemma SlowOpsAreTimely(node: Node, m: Mesh, steps: seq<Step>, d: nat)
    requires m.local.agentId == LocalId(node) && node.config.ttl < node.config.heartbeatInterval + 2 * d
    requires OpsOf(node, m, steps) == SlowOps(m.local, node.config.heartbeatInterval + 2 * d)
    ensures TimelyRun(node, m, steps, [d, node.config.heartbeatInterval + 2 * d], d)
  {
    SlowRunIsTimely(node.config.ttl, m.local, node.config.heartbeatInterval, d);
  }

  /** For every node that advertises: no timely run, whatever the interleaving, expires the local agent
      exactly if the TTL covers one heartbeat interval and twice the commit delay. */
  lemma LocalNeverExpiresIff(node: Node, d: nat)
    requires Valid(node.config) && node.config.advertiseLocal
    ensures (forall steps, times | TimelyRun(node, Init(node), steps, times, d) :: SparesLocal(node, Init(node), steps))
            <==> node.config.heartbeatInterval + 2 * d <= node.config.ttl
  {
    if node.config.heartbeatInterval + 2 * d <= node.config.ttl {
      forall steps, times | TimelyRun(node, Init(node), steps, times, d) ensures SparesLocal(node, Init(node), steps) {
        LocalNeverExpires(node, steps, times, d);
      }
    } else {
      SlowNodeExpires(node, d);
    }
  }

  // ---------- the local entry stays ----------

  lemma ExpiryStays(log: seq<Event>, longer: seq<Event>, id: string)
    requires log <= longer && NeverExpired(longer, id)
    ensures NeverExpired(log, id)
  {
  }

  lemma SweptShows(s: State, ttl: nat, now: nat, stale: seq<string>, id: string)
    requires Keyed(s.agents) && Enabled(s, ttl, Sweep(now, stale)) && id in stale
    ensures !NeverExpired(Apply(s, Sweep(now, stale)).log, id)
  {
    assert forall x :: x in stale <==> x in Elems(stale);
    EvictLog(s, stale);
    var i :| 0 <= i < |stale| && stale[i] == id;
    var left := Departures(s.agents, stale);
    assert IsExpiryOf(left[i], id);
    assert (s.log + left)[|s.log| + i] == left[i];
  }

  lemma LogOnlyGrows(node: Node, m: Mesh, step: Step)
    requires Possible(m, step)
    ensures m.registry.log <= NextRegistry(node, m, step).log
  {
    if RegistryOp(node, m, step).Some? {
      Observers.ApplyExtendsLog(m.registry, RegistryOp(node, m, step).value);
    }
  }

  /** A quiet step keeps the local entry, or reports it expired. */
  lemma QuietStepKeepsEntry(node: Node, own: Rule, foreign: Rule, m: Mesh, step: Step)
    requires CanStep(node, m, step) && Quiet(step) && AllReturned(m) && LocalId(node) in m.registry.agents
    requires Sound(node, own, foreign, m) && OwnRule(node, own) && ForeignRule(node, foreign)
    ensures LocalId(node) in NextRegistry(node, m, step).agents
            || !NeverExpired(NextRegistry(node, m, step).log, LocalId(node))
  {
    match step
    case CommitListener(_) => ListenerStepSparesLocal(node, own, foreign, m, step);
    case CommitSweep(stale) =>
      EvictAgents(m.registry, stale);
      if LocalId(node) in stale {
        SweptShows(m.registry, node.config.ttl, m.sweepClock.value, stale, LocalId(node));
      }
    case _ =>
  }

  lemma {:induction false} QuietRunKeepsEntry(node: Node, own: Rule, foreign: Rule, m: Mesh, steps: seq<Step>)
    requires AllReturned(m) && AllQuiet(steps) && LocalId(node) in m.registry.agents
    requires Sound(node, own, foreign, m) && OwnRule(node, own) && ForeignRule(node, foreign)
    requires NeverExpired(RunFrom(node, m, steps).registry.log, LocalId(node))
    ensures AllReturned(RunFrom(node, m, steps)) && LocalId(node) in RunFrom(node, m, steps).registry.agents
  {
    if steps != [] {
      var front, step := steps[..|steps| - 1], steps[|steps| - 1];
      var before := RunFrom(node, m, front);
      RunStaysSound(node, own, foreign, m, front);
      if CanStep(node, before, step) {
        LogOnlyGrows(node, before, step);
        ExpiryStays(before.registry.log, NextRegistry(node, before, step).log, LocalId(node));
        QuietRunKeepsEntry(node, own, foreign, m, front);
        QuietStepReturned(node, before, step);
        QuietStepKeepsEntry(node, own, foreign, before, step);
      } else {
        QuietRunKeepsEntry(node, own, foreign, m, front);
      }
    }
  }

  /** A run that reaches a state in which all update calls have returned, and from there on consists of
      a heartbeat that reads and commits, and quiet steps in between and afterwards. */
  predicate EndsWithTick(node: Node, steps: seq<Step>, mid: seq<Step>, rest: seq<Step>)
    requires Valid(node.config)
  {
    var m := RunFrom(node, Init(node), steps);
    && AllReturned(m) && AllQuiet(mid) && AllQuiet(rest) && CanStep(node, m, ReadLocal)
    && CanStep(node, RunFrom(node, Take(node, m, ReadLocal), mid), Commit(Heartbeat))
  }

  function WithTick(steps: seq<Step>, mid: seq<Step>, rest: seq<Step>): seq<Step> {
    steps + [ReadLocal] + mid + [Commit(Heartbeat)] + rest
  }

  lemma TickRun(node: Node, steps: seq<Step>, mid: seq<Step>, rest: seq<Step>)
    requires Valid(node.config) && EndsWithTick(node, steps, mid, rest)
    ensures var read := Take(node, RunFrom(node, Init(node), steps), ReadLocal);
            var done := Take(node, RunFrom(node, read, mid), Commit(Heartbeat));
            && RunFrom(node, Init(node), steps + [ReadLocal] + mid + [Commit(Heartbeat)]) == done
            && RunFrom(node, Init(node), WithTick(steps, mid, rest)) == RunFrom(node, done, rest)
  {
    RunOneMore(node, Init(node), steps, ReadLocal);
    RunOfConcat(node, Init(node), steps + [ReadLocal], mid);
    RunOneMore(node, Init(node), steps + [ReadLocal] + mid, Commit(Heartbeat));
    RunOfConcat(node, Init(node), steps + [ReadLocal] + mid + [Commit(Heartbeat)], rest);
  }

  /** Once all update calls have returned and one heartbeat has gone through, the local entry is there
      and equals the local announcement, and this stays so as long as commits are timely and no
      update and no shutdown begins. */
  lemma ConvergedForGood(node: Node, steps: seq<Step>, mid: seq<Step>, rest: seq<Step>, times: seq<nat>, d: nat)
    requires Valid(node.config) && EndsWithTick(node, steps, mid, rest)
    requires |times| == |OpsOf(node, Init(node), WithTick(steps, mid, rest))|
    requires Timely(Timestamped(OpsOf(node, Init(node), WithTick(steps, mid, rest)), times), LocalId(node),
                    node.config.heartbeatInterval, d)
    requires node.config.heartbeatInterval + 2 * d <= node.config.ttl
    ensures var m, later := RunFrom(node, Init(node), steps), RunFrom(node, Init(node), WithTick(steps, mid, rest));
            LocalId(node) in later.registry.agents && later.registry.agents[LocalId(node)].payload == m.local
  {
    LocalNeverExpires(node, WithTick(steps, mid, rest), times, d);
    TickRun(node, steps, mid, rest);
    HeartbeatConverges(node, steps, mid, rest);
    AfterTick(node, steps, mid, rest);
    var done := RunFrom(node, Init(node), steps + [ReadLocal] + mid + [Commit(Heartbeat)]);
    OursIsOwnRule(node);
    ForeignIsForeignRule(node);
    RunIsSound(node, steps + [ReadLocal] + mid + [Commit(Heartbeat)]);
    QuietRunKeepsEntry(node, OursOf(node), ForeignTo(node), done, rest);
  }

  lemma AfterTick(node: Node, steps: seq<Step>, mid: seq<Step>, rest: seq<Step>)
    requires Valid(node.config) && EndsWithTick(node, steps, mid, rest)
    ensures AllReturned(RunFrom(node, Init(node), steps + [ReadLocal] + mid + [Commit(Heartbeat)]))
  {
    var m := RunFrom(node, Init(node), steps);
    var read := Take(node, m, ReadLocal);
    TickRun(node, steps, mid, rest);
    ReadMakesFresh(node, m);
    QuietRunFresh(node, read, mid);
    QuietStepReturned(node, RunFrom(node, read, mid), Commit(Heartbeat));
  }

  // ---------- a crashed peer ----------

  /** A sweep commits at position k, with the clock it read before. */
  predicate SweepAt(node: Node, m: Mesh, steps: seq<Step>, k: nat)
    requires k < |steps|
  {
    Performed(node, m, steps, k) && steps[k].CommitSweep?
  }

  function ClockAt(node: Node, m: Mesh, steps: seq<Step>, k: nat): nat
    requires k < |steps| && SweepAt(node, m, steps, k)
  {
    RunFrom(node, m, steps[..k]).sweepClock.value
  }

  predicate PastSweepAt(node: Node, m: Mesh, steps: seq<Step>, k: nat, time: nat) {
    k < |steps| && SweepAt(node, m, steps, k) && ClockAt(node, m, steps, k) > time
  }

  predicate SweptPast(node: Node, m: Mesh, steps: seq<Step>, time: nat) {
    exists k: nat :: k < |steps| && PastSweepAt(node, m, steps, k, time)
  }

  lemma PastSweepInFront(node: Node, m: Mesh, steps: seq<Step>, k: nat, time: nat)
    requires k < |steps| - 1
    ensures PastSweepAt(node, m, steps, k, time) <==> PastSweepAt(node, m, steps[..|steps| - 1], k, time)
  {
    PerformedInFront(node, m, steps, k);
    assert steps[..|steps| - 1][..k] == steps[..k];
  }

  lemma SweptPastOneMore(node: Node, m: Mesh, steps: seq<Step>, time: nat)
    requires steps != []
    ensures var n := |steps| - 1;
            SweptPast(node, m, steps, time)
            <==> SweptPast(node, m, steps[..n], time) || PastSweepAt(node, m, steps, n, time)
  {
    var n := |steps| - 1;
    forall k: nat | k < n
      ensures PastSweepAt(node, m, steps, k, time) <==> PastSweepAt(node, m, steps[..n], k, time)
    {
      PastSweepInFront(node, m, steps, k, time);
    }
  }

  /** The listener is not busy with the peer. */
  predicate NotPending(m: Mesh, a: Announcement) {
    && !(m.pending.Upserting? && m.pending.announcement.agentId == a.agentId)
    && !(m.pending.Removing? && m.pending.fullname == a.instanceName)
  }

  /** The step brings no news of the peer: nothing heard under its id, and no goodbye of its name. */
  predicate SilentOf(node: Node, a: Announcement, step: Step) {
    step.Deliver? ==> !HeardAs(node, step.event, a.agentId) && step.event != ServiceEvent.Removed(a.instanceName)
  }

  predicate AllSilentOf(node: Node, a: Announcement, steps: seq<Step>) {
    forall i :: 0 <= i < |steps| ==> SilentOf(node, a, steps[i])
  }

  lemma SilentOpOf(node: Node, own: Rule, foreign: Rule, m: Mesh, step: Step, a: Announcement, t: nat)
    requires CanStep(node, m, step) && NotPending(m, a) && SilentOf(node, a, step) && a.agentId != LocalId(node)
    requires Sound(node, own, foreign, m) && OwnRule(node, own)
    requires a.agentId in m.registry.agents ==> m.registry.agents[a.agentId] == AgentInfo(a, t)
    ensures NotPending(Take(node, m, step), a)
    ensures var op := RegistryOp(node, m, step); op.Some? ==> SilentAbout(op.value, a.agentId)
  {
    assert own(m.local);
    if step.Commit? {
      assert own(m.flights[step.actor].copy);
    }
  }

  /** What one silent step does to the peer's entry. */
  lemma SilentMeshStep(node: Node, own: Rule, foreign: Rule, m: Mesh, step: Step, a: Announcement, t: nat)
    requires CanStep(node, m, step) && NotPending(m, a) && SilentOf(node, a, step) && a.agentId != LocalId(node)
    requires Sound(node, own, foreign, m) && OwnRule(node, own)
    requires a.agentId in m.registry.agents ==> m.registry.agents[a.agentId] == AgentInfo(a, t)
    ensures var s := NextRegistry(node, m, step);
            && (a.agentId in s.agents ==> s.agents[a.agentId] == AgentInfo(a, t))
            && (a.agentId in s.agents
                <==> a.agentId in m.registry.agents
                     && !(step.CommitSweep? && m.sweepClock.value > t + node.config.ttl))
  {
    SilentOpOf(node, own, foreign, m, step, a, t);
    var op := RegistryOp(node, m, step);
    if op.Some? && a.agentId in m.registry.agents {
      SilentStep(m.registry, node.config.ttl, op.value, a.agentId);
    } else if op.Some? {
      OtherOpsKeepOrRemove(m.registry, op.value, a.agentId);
    }
  }

  /** A silent peer stays known, unchanged, exactly as long as no sweep has a clock beyond its stamp plus
      the TTL. */
  lemma {:induction false} SilentMeshRun(node: Node, own: Rule, foreign: Rule, m: Mesh, steps: seq<Step>,
                                         a: Announcement, t: nat)
    requires Sound(node, own, foreign, m) && OwnRule(node, own) && ForeignRule(node, foreign)
    requires a.agentId != LocalId(node) && NotPending(m, a) && AllSilentOf(node, a, steps)
    requires a.agentId in m.registry.agents && m.registry.agents[a.agentId] == AgentInfo(a, t)
    ensures var later := RunFrom(node, m, steps);
            && NotPending(later, a)
            && (a.agentId in later.registry.agents ==> later.registry.agents[a.agentId] == AgentInfo(a, t))
            && (a.agentId in later.registry.agents <==> !SweptPast(node, m, steps, t + node.config.ttl))
  {
    if steps != [] {
      var front, step := steps[..|steps| - 1], steps[|steps| - 1];
      SilentMeshRun(node, own, foreign, m, front, a, t);
      RunStaysSound(node, own, foreign, m, front);
      SweptPastOneMore(node, m, steps, t + node.config.ttl);
      var before := RunFrom(node, m, front);
      if CanStep(node, before, step) {
        SilentOpOf(node, own, foreign, before, step, a, t);
        SilentMeshStep(node, own, foreign, before, step, a, t);
      }
    }
  }

  /** No sweep is more than `gap` later than some earlier sweep of the run, or than `from`. */
  predicate SweptRegularly(node: Node, m: Mesh, steps: seq<Step>, gap: nat, from: nat) {
    forall k: nat :: k < |steps| && SweepAt(node, m, steps, k) ==>
      ClockAt(node, m, steps, k) <= from + gap || NearEarlierSweep(node, m, steps, k, gap)
  }

  predicate NearEarlierSweep(node: Node, m: Mesh, steps: seq<Step>, k: nat, gap: nat)
    requires k < |steps| && SweepAt(node, m, steps, k)
  {
    exists j: nat :: j < k && SweepAt(node, m, steps, j)
                     && ClockAt(node, m, steps, k) <= ClockAt(node, m, steps, j) + gap
  }

  /** The first sweep past a moment. */
  lemma {:induction false} FirstPastSweep(node: Node, m: Mesh, steps: seq<Step>, time: nat) returns (k: nat)
    requires SweptPast(node, m, steps, time)
    ensures PastSweepAt(node, m, steps, k, time) && !SweptPast(node, m, steps[..k], time)
  {
    var n := |steps| - 1;
    SweptPastOneMore(node, m, steps, time);
    if SweptPast(node, m, steps[..n], time) {
      k := FirstPastSweep(node, m, steps[..n], time);
      PastSweepInFront(node, m, steps, k, time);
      assert steps[..n][..k] == steps[..k];
    } else {
      k := n;
    }
  }

  lemma FirstPastSweepInTime(node: Node, m: Mesh, steps: seq<Step>, gap: nat, from: nat, time: nat, k: nat)
    requires SweptRegularly(node, m, steps, gap, from) && from <= time
    requires PastSweepAt(node, m, steps, k, time) && !SweptPast(node, m, steps[..k], time)
    ensures ClockAt(node, m, steps, k) <= time + gap
  {
    if ClockAt(node, m, steps, k) > from + gap {
      assert NearEarlierSweep(node, m, steps, k, gap);
      var j: nat :| j < k && SweepAt(node, m, steps, j) && ClockAt(node, m, steps, k) <= ClockAt(node, m, steps, j) + gap;
      assert steps[..k][..j] == steps[..j];
      assert !PastSweepAt(node, m, steps[..k], j, time);
    }
  }

  /** The sweep at position k removes the peer, in the gap after its stamp plus the TTL. */
  predicate ExpiresAt(node: Node, m: Mesh, steps: seq<Step>, k: nat, id: string, t: nat, gap: nat) {
    && k < |steps| && SweepAt(node, m, steps, k)
    && t + node.config.ttl < ClockAt(node, m, steps, k) <= t + node.config.ttl + gap
    && id in RunFrom(node, m, steps[..k]).registry.agents
    && id !in RunFrom(node, m, steps[..k + 1]).registry.agents
  }

  /** After any run, a peer that is known with stamp t and of which nothing is heard any more, while the
      sweeper goes on at most `gap` apart: it is known until a sweep with a clock beyond t + ttl, that
      sweep has a clock of at most t + ttl + gap and removes it, and it does not come back. */
  lemma CrashedPeerExpires(node: Node, front: seq<Step>, rest: seq<Step>, a: Announcement, t: nat, gap: nat, from: nat)
    requires Valid(node.config) && a.agentId != LocalId(node)
    requires var m := RunFrom(node, Init(node), front);
             && KnownAt(m, a, t)
             && SweptRegularly(node, m, rest, gap, from)
             && SweptPast(node, m, rest, t + node.config.ttl)
    requires AllSilentOf(node, a, rest) && from <= t + node.config.ttl
    ensures a.agentId !in RunFrom(node, Init(node), front + rest).registry.agents
    ensures exists k: nat :: ExpiresAt(node, RunFrom(node, Init(node), front), rest, k, a.agentId, t, gap)
  {
    var m := RunFrom(node, Init(node), front);
    OursIsOwnRule(node);
    ForeignIsForeignRule(node);
    RunIsSound(node, front);
    RunOfConcat(node, Init(node), front, rest);
    SilentMeshRun(node, OursOf(node), ForeignTo(node), m, rest, a, t);
    var k := SomeSweepExpires(node, OursOf(node), ForeignTo(node), m, rest, a, t, gap, from);
  }

  /** The peer is known with stamp t, and the listener is not busy with it. */
  predicate KnownAt(m: Mesh, a: Announcement, t: nat) {
    a.agentId in m.registry.agents && m.registry.agents[a.agentId] == AgentInfo(a, t) && NotPending(m, a)
  }

  lemma SomeSweepExpires(node: Node, own: Rule, foreign: Rule, m: Mesh, rest: seq<Step>, a: Announcement, t: nat,
                         gap: nat, from: nat) returns (k: nat)
    requires Sound(node, own, foreign, m) && OwnRule(node, own) && ForeignRule(node, foreign)
    requires a.agentId != LocalId(node) && KnownAt(m, a, t) && AllSilentOf(node, a, rest)
    requires SweptRegularly(node, m, rest, gap, from) && from <= t + node.config.ttl
    requires SweptPast(node, m, rest, t + node.config.ttl)
    ensures ExpiresAt(node, m, rest, k, a.agentId, t, gap)
  {
    k := FirstPastSweep(node, m, rest, t + node.config.ttl);
    FirstPastSweepInTime(node, m, rest, gap, from, t + node.config.ttl, k);
    SilentPrefix(node, a, rest, k);
    SilentMeshRun(node, own, foreign, m, rest[..k], a, t);
    PeerGoneAfter(node, own, foreign, m, rest, a, t, k);
  }

  lemma PeerGoneAfter(node: Node, own: Rule, foreign: Rule, m: Mesh, rest: seq<Step>, a: Announcement, t: nat, k: nat)
    requires Sound(node, own, foreign, m) && OwnRule(node, own) && ForeignRule(node, foreign)
    requires a.agentId != LocalId(node) && KnownAt(m, a, t) && AllSilentOf(node, a, rest)
    requires PastSweepAt(node, m, rest, k, t + node.config.ttl)
    ensures a.agentId !in RunFrom(node, m, rest[..k + 1]).registry.agents
  {
    SameSweepInPrefix(node, m, rest, k, t + node.config.ttl);
    SilentPrefix(node, a, rest, k + 1);
    SilentMeshRun(node, own, foreign, m, rest[..k + 1], a, t);
  }

  lemma SilentPrefix(node: Node, a: Announcement, steps: seq<Step>, n: nat)
    requires AllSilentOf(node, a, steps) && n <= |steps|
    ensures AllSilentOf(node, a, steps[..n])
  {
  }

  lemma SameSweepInPrefix(node: Node, m: Mesh, steps: seq<Step>, k: nat, time: nat)
    requires PastSweepAt(node, m, steps, k, time)
    ensures SweptPast(node, m, steps[..k + 1], time)
  {
    assert steps[..k + 1][..k] == steps[..k];
    assert PastSweepAt(node, m, steps[..k + 1], k, time);
  }
}
