/** Time stamps, staleness and eviction over whole runs. Stamps are read before the lock is taken,
    so the stamp of an operation may be older than its commit time. */
module Timing {
  import opened Wrappers
  import opened Types
  import opened Ordering
  import opened RegistrySpec
  import opened Config

  // ---------- an entry is its last upsert ----------

  predicate IsUpsertOf(op: Op, id: string) {
    op.Upsert? && op.announcement.agentId == id
  }

  function LastUpsert(ops: seq<Op>, id: string): Option<AgentInfo> {
    if ops == [] then None
    else
      var op := ops[|ops| - 1];
      if IsUpsertOf(op, id) then Some(AgentInfo(op.announcement, op.seenAt))
      else LastUpsert(ops[..|ops| - 1], id)
  }

  lemma OtherOpsKeepOrRemove(s: State, op: Op, id: string)
    requires !IsUpsertOf(op, id)
    ensures id in Apply(s, op).agents ==> id in s.agents && Apply(s, op).agents[id] == s.agents[id]
  {
    if op.Sweep? {
      EvictAgents(s, op.stale);
    }
  }

  /** In every run, what the registry holds for an agent is the last announcement committed for it,
      with the stamp of that commit: later stamps do not win, later commits do. */
  lemma {:induction false} EntryIsLastUpsert(ops: seq<Op>, id: string)
    ensures id in After(ops).agents ==> LastUpsert(ops, id) == Some(After(ops).agents[id])
  {
    if ops != [] {
      var front, op := ops[..|ops| - 1], ops[|ops| - 1];
      EntryIsLastUpsert(front, id);
      if !IsUpsertOf(op, id) {
        OtherOpsKeepOrRemove(After(front), op, id);
      }
    }
  }

  // ---------- crash detection ----------

  /** An operation that neither hears from the agent nor removes it explicitly. */
  predicate SilentAbout(op: Op, id: string) {
    && !IsUpsertOf(op, id)
    && !(op.Remove? && op.id == id)
    && !(op.RemoveNamed? && op.victim == Some(id))
  }

  predicate SweptAfter(ops: seq<Op>, time: nat) {
    exists i :: 0 <= i < |ops| && ops[i].Sweep? && ops[i].now > time
  }

  lemma SilentStep(s: State, ttl: nat, op: Op, id: string)
    requires id in s.agents && SilentAbout(op, id) && Enabled(s, ttl, op)
    ensures id in Apply(s, op).agents <==> !(op.Sweep? && op.now > s.agents[id].lastSeen + ttl)
    ensures id in Apply(s, op).agents ==> Apply(s, op).agents[id] == s.agents[id]
  {
    if op.Sweep? {
      SweepExact(s, ttl, op.now, op.stale);
    }
  }

  /** A peer whose last announcement was committed with stamp t, and of which nothing is heard
      since, is still known exactly as long as no sweep has run with a clock beyond t + ttl. */
  lemma {:induction false} SilentPeerIffNotSwept(ttl: nat, before: seq<Op>, a: Announcement, t: nat,
                                                 origin: EventOrigin, rest: seq<Op>)
    requires Legal(ttl, before + [Upsert(a, t, origin)] + rest)
    requires forall i :: 0 <= i < |rest| ==> SilentAbout(rest[i], a.agentId)
    ensures var s := After(before + [Upsert(a, t, origin)] + rest);
            && (a.agentId in s.agents <==> !SweptAfter(rest, t + ttl))
            && (a.agentId in s.agents ==> s.agents[a.agentId] == AgentInfo(a, t))
  {
    var first := before + [Upsert(a, t, origin)];
    var id := a.agentId;
    if rest == [] {
      assert first + rest == first;
      AfterOneMore(before, Upsert(a, t, origin), ttl);
    } else {
      var n := |rest| - 1;
      assert first + rest == first + rest[..n] + [rest[n]];
      AfterOneMore(first + rest[..n], rest[n], ttl);
      SilentPeerIffNotSwept(ttl, before, a, t, origin, rest[..n]);
      var s := After(first + rest[..n]);
      if id in s.agents {
        SilentStep(s, ttl, rest[n], id);
        SweptStep(rest, t + ttl);
      } else {
        OtherOpsKeepOrRemove(s, rest[n], id);
        SweptStep(rest, t + ttl);
      }
    }
  }

  lemma SweptStep(ops: seq<Op>, time: nat)
    requires ops != []
    ensures var n := |ops| - 1;
            SweptAfter(ops, time) <==> SweptAfter(ops[..n], time) || (ops[n].Sweep? && ops[n].now > time)
  {
  }

  /** Between any moment and `gap` later, as long as that is observed, some sweep reads its clock. */
  predicate SweepsEvery(ops: seq<Op>, gap: nat, from: nat, until: nat) {
    forall x: nat | from <= x && x + gap <= until :: SweptWithin(ops, x, gap)
  }

  predicate SweptWithin(ops: seq<Op>, x: nat, gap: nat) {
    exists i :: 0 <= i < |ops| && ops[i].Sweep? && x < ops[i].now <= x + gap
  }

  /** A crashed peer is gone at the latest one TTL and one sweep gap after its last stamp. */
  lemma CrashDetectedInTime(ttl: nat, gap: nat, until: nat, before: seq<Op>, a: Announcement, t: nat,
                            origin: EventOrigin, rest: seq<Op>)
    requires Legal(ttl, before + [Upsert(a, t, origin)] + rest)
    requires forall i :: 0 <= i < |rest| ==> SilentAbout(rest[i], a.agentId)
    requires SweepsEvery(rest, gap, t, until)
    requires t + ttl + gap <= until
    ensures a.agentId !in After(before + [Upsert(a, t, origin)] + rest).agents
  {
    SilentPeerIffNotSwept(ttl, before, a, t, origin, rest);
    assert SweptWithin(rest, t + ttl, gap);
  }

  // ---------- liveness of the local entry ----------

  /** An operation and the time at which it commits. */
  datatype Timed = Timed(op: Op, at: nat)

  function Ops(run: seq<Timed>): seq<Op> {
    if run == [] then [] else Ops(run[..|run| - 1]) + [run[|run| - 1].op]
  }

  lemma {:induction false} OpsAt(run: seq<Timed>)
    ensures |Ops(run)| == |run|
    ensures forall i :: 0 <= i < |run| ==> Ops(run)[i] == run[i].op
  {
    if run != [] {
      OpsAt(run[..|run| - 1]);
    }
  }

  lemma {:induction false} OpsOfPrefix(run: seq<Timed>, i: nat)
    requires i <= |run|
    ensures i <= |Ops(run)| && Ops(run[..i]) == Ops(run)[..i]
  {
    OpsAt(run);
    if i == |run| {
      assert run[..i] == run;
      assert Ops(run)[..i] == Ops(run);
    } else {
      var n := |run| - 1;
      OpsOfPrefix(run[..n], i);
      assert run[..i] == run[..n][..i];
      assert Ops(run)[..i] == Ops(run[..n])[..i];
    }
  }

  predicate CommitsInOrder(run: seq<Timed>) {
    forall i, j :: 0 <= i < j < |run| ==> run[i].at <= run[j].at
  }

  /** A sweep reads its clock no later than it commits. */
  predicate ClocksRead(run: seq<Timed>) {
    forall i :: 0 <= i < |run| && run[i].op.Sweep? ==> run[i].op.now <= run[i].at
  }

  /** Every upsert of the agent commits within d of reading its stamp. */
  predicate CommitsWithin(run: seq<Timed>, id: string, d: nat) {
    forall i :: 0 <= i < |run| && IsUpsertOf(run[i].op, id) ==> run[i].at <= run[i].op.seenAt + d
  }

  /** Once the agent has been upserted, its last upsert is never more than `gap` old. */
  predicate UpsertsEvery(run: seq<Timed>, id: string, gap: nat) {
    forall i, j :: 0 <= j < i < |run| && IsUpsertOf(run[j].op, id) ==> UpsertedSince(run, id, i, gap)
  }

  predicate UpsertedSince(run: seq<Timed>, id: string, i: nat, gap: nat)
    requires i < |run|
  {
    exists k :: 0 <= k < i && IsUpsertOf(run[k].op, id) && run[i].at <= run[k].at + gap
  }

  /** The timing of a node whose heartbeat interval is H and whose upserts take at most d. */
  predicate Timely(run: seq<Timed>, id: string, H: nat, d: nat) {
    && CommitsInOrder(run)
    && ClocksRead(run)
    && CommitsWithin(run, id, d)
    && UpsertsEvery(run, id, H + d)
  }

  predicate Evicts(run: seq<Timed>, id: string) {
    exists i :: 0 <= i < |run| && run[i].op.Sweep? && id in run[i].op.stale
  }

  /** The stamp of the last upsert is recent when some upsert is. */
  lemma {:induction false} LastStampIsRecent(run: seq<Timed>, id: string, d: nat, k: nat)
    requires CommitsInOrder(run) && CommitsWithin(run, id, d)
    requires k < |run| && IsUpsertOf(run[k].op, id)
    ensures LastUpsert(Ops(run), id).Some?
    ensures run[k].at <= LastUpsert(Ops(run), id).value.lastSeen + d
  {
    var n := |run| - 1;
    assert Ops(run)[..|Ops(run)| - 1] == Ops(run[..n]);
    if !IsUpsertOf(run[n].op, id) {
      LastStampIsRecent(run[..n], id, d, k);
    }
  }

  lemma {:induction false} LegalPrefix(ttl: nat, ops: seq<Op>, i: nat)
    requires Legal(ttl, ops) && i < |ops|
    ensures Legal(ttl, ops[..i]) && Enabled(After(ops[..i]), ttl, ops[i])
  {
    if i < |ops| - 1 {
      LegalPrefix(ttl, ops[..|ops| - 1], i);
      assert ops[..|ops| - 1][..i] == ops[..i];
    }
  }

  /** In a timely run the last stamp is never older than one interval and two delays. */
  lemma LastStampInTime(run: seq<Timed>, id: string, H: nat, d: nat, i: nat)
    requires Timely(run, id, H, d) && i < |run|
    requires LastUpsert(Ops(run[..i]), id).Some?
    ensures run[i].at <= LastUpsert(Ops(run[..i]), id).value.lastSeen + H + 2 * d
  {
    var front := run[..i];
    var j := UpsertIndex(front, id);
    assert front[j] == run[j];
    assert UpsertedSince(run, id, i, H + d);
    var k :| 0 <= k < i && IsUpsertOf(run[k].op, id) && run[i].at <= run[k].at + (H + d);
    assert front[k] == run[k];
    LastStampIsRecent(front, id, d, k);
  }

  lemma EnabledAt(ttl: nat, run: seq<Timed>, i: nat)
    requires Legal(ttl, Ops(run)) && i < |run|
    ensures Legal(ttl, Ops(run[..i])) && Enabled(After(Ops(run[..i])), ttl, run[i].op)
  {
    OpsAt(run);
    OpsOfPrefix(run, i);
    LegalPrefix(ttl, Ops(run), i);
  }

  lemma LocalIsFresh(ttl: nat, run: seq<Timed>, id: string, H: nat, d: nat, i: nat)
    requires Legal(ttl, Ops(run)) && Timely(run, id, H, d) && H + 2 * d <= ttl
    requires i < |run| && run[i].op.Sweep?
    ensures id !in StaleIds(After(Ops(run[..i])).agents, run[i].op.now, ttl)
  {
    EnabledAt(ttl, run, i);
    EntryIsLastUpsert(Ops(run[..i]), id);
    if id in After(Ops(run[..i])).agents {
      LastStampInTime(run, id, H, d, i);
    }
  }

  lemma SweepSparesLocal(ttl: nat, run: seq<Timed>, id: string, H: nat, d: nat, i: nat)
    requires Legal(ttl, Ops(run)) && Timely(run, id, H, d) && H + 2 * d <= ttl
    requires i < |run| && run[i].op.Sweep?
    ensures id !in run[i].op.stale
  {
    EnabledAt(ttl, run, i);
    LocalIsFresh(ttl, run, id, H, d, i);
    assert id !in Elems(run[i].op.stale);
  }

  lemma {:induction false} UpsertIndex(run: seq<Timed>, id: string) returns (j: nat)
    requires LastUpsert(Ops(run), id).Some?
    ensures j < |run| && IsUpsertOf(run[j].op, id)
  {
    var n := |run| - 1;
    assert Ops(run)[..|Ops(run)| - 1] == Ops(run[..n]);
    if IsUpsertOf(run[n].op, id) {
      j := n;
    } else {
      j := UpsertIndex(run[..n], id);
    }
  }

  /** A sweep that comes as late as the timing allows, after one upsert that took as long as it may. */
  function SlowRun(a: Announcement, H: nat, d: nat): seq<Timed> {
    [Timed(Upsert(a, 0, Local), d), Timed(Sweep(H + 2 * d, [a.agentId]), H + 2 * d)]
  }

  lemma SlowRunEvicts(ttl: nat, a: Announcement, H: nat, d: nat)
    requires ttl < H + 2 * d
    ensures var run := SlowRun(a, H, d);
            Legal(ttl, Ops(run)) && Timely(run, a.agentId, H, d) && Evicts(run, a.agentId)
  {
    var run := SlowRun(a, H, d);
    var up, sweep := Upsert(a, 0, Local), Sweep(H + 2 * d, [a.agentId]);
    assert run[..1] == [Timed(up, d)] && run[..1][..0] == [];
    assert Ops(run[..1]) == [] + [up];
    assert Ops(run) == [] + [up] + [sweep];
    AfterOneMore([], up, ttl);
    AfterOneMore([] + [up], sweep, ttl);
    var s := After([] + [up]);
    assert s.agents == map[a.agentId := AgentInfo(a, 0)];
    assert Elems([a.agentId]) == StaleIds(s.agents, H + 2 * d, ttl);
    assert UpsertedSince(run, a.agentId, 1, H + d);
    assert run[1].op == sweep && a.agentId in sweep.stale;
  }

  /** Sweeps spare the local agent in every timely run exactly when the TTL covers one heartbeat
      interval and twice the commit delay. */
  lemma LocalSparedIff(ttl: nat, a: Announcement, H: nat, d: nat)
    ensures (forall run: seq<Timed> | Legal(ttl, Ops(run)) && Timely(run, a.agentId, H, d) :: !Evicts(run, a.agentId))
            <==> H + 2 * d <= ttl
  {
    if H + 2 * d <= ttl {
      forall run: seq<Timed> | Legal(ttl, Ops(run)) && Timely(run, a.agentId, H, d) ensures !Evicts(run, a.agentId) {
        forall i | 0 <= i < |run| && run[i].op.Sweep? ensures a.agentId !in run[i].op.stale {
          SweepSparesLocal(ttl, run, a.agentId, H, d, i);
        }
      }
    } else {
      SlowRunEvicts(ttl, a, H, d);
    }
  }

  /** Validation leaves room: with any commit delay up to half of what the TTL exceeds the
      heartbeat interval by, the local agent of a validated node is never swept. */
  lemma ValidatedNodeIsSpared(c: ZeroConfConfig, run: seq<Timed>, d: nat)
    requires Valid(c)
    requires 2 * d <= c.ttl - c.heartbeatInterval
    requires Legal(c.ttl, Ops(run)) && Timely(run, c.agentId, c.heartbeatInterval, d)
    ensures 0 < c.ttl - c.heartbeatInterval
    ensures !Evicts(run, c.agentId)
  {
    forall i | 0 <= i < |run| && run[i].op.Sweep? ensures c.agentId !in run[i].op.stale {
      SweepSparesLocal(c.ttl, run, c.agentId, c.heartbeatInterval, d, i);
    }
  }
}
