/** Several nodes on one link. The network may delay, lose, repeat and reorder what the nodes
    publish, and report removals at will; it delivers nothing that no node published. */
module Network {
  import opened Wrappers
  import opened Types
  import opened Announcements
  import opened Config
  import opened Txt
  import opened RoundTrips
  import opened CanonicalProperties
  import opened Readability
  import opened RegistrySpec
  import opened Timing
  import opened ListenerSpec
  import opened MeshSpec
  import opened MeshRuns

  type Cluster = seq<Node>
  type Net = seq<Mesh>

  predicate ValidCluster(cluster: Cluster) {
    && (forall i :: 0 <= i < |cluster| ==> Valid(cluster[i].config))
    && (forall i, j :: 0 <= i < j < |cluster| ==> LocalId(cluster[i]) != LocalId(cluster[j]))
  }

  /** A step of one node. */
  datatype NetStep = NetStep(at: nat, step: Step)

  /** The service event that the record of an announcement gives rise to at some receiver. */
  function RecordOf(p: Announcement, addresses: seq<IpAddr>): ServiceEvent {
    Resolved(p.instanceName, p.port, addresses, Carry(Print(p)))
  }

  /** What a receiver parses from that record. */
  function Delivered(p: Announcement, addresses: seq<IpAddr>): Outcome<Announcement> {
    Parse(p.instanceName, p.port, addresses, Carry(Print(p)))
  }

  predicate IsPublished(net: Net, j: nat, p: Announcement) {
    j < |net| && p in net[j].history.published
  }

  ghost predicate Authentic(net: Net, s: NetStep) {
    s.step.Deliver? && s.step.event.Resolved? ==>
      exists j: nat, p, addresses :: IsPublished(net, j, p) && s.step.event == RecordOf(p, addresses)
  }

  ghost predicate CanNetStep(cluster: Cluster, net: Net, s: NetStep)
    requires |net| == |cluster|
  {
    s.at < |net| && CanStep(cluster[s.at], net[s.at], s.step) && Authentic(net, s)
  }

  function InitNet(cluster: Cluster): (net: Net)
    requires ValidCluster(cluster)
    ensures |net| == |cluster|
  {
    seq(|cluster|, i requires 0 <= i < |cluster| => Init(cluster[i]))
  }

  /** The network after a sequence of steps; a step that is not possible is skipped. */
  ghost function RunNet(cluster: Cluster, steps: seq<NetStep>): (net: Net)
    requires ValidCluster(cluster)
    ensures |net| == |cluster|
  {
    if steps == [] then InitNet(cluster)
    else
      var before := RunNet(cluster, steps[..|steps| - 1]);
      var s := steps[|steps| - 1];
      if CanNetStep(cluster, before, s)
      then before[s.at := Take(cluster[s.at], before[s.at], s.step)]
      else before
  }

  /** The steps that node i itself takes. */
  ghost function StepsOf(cluster: Cluster, steps: seq<NetStep>, i: nat): seq<Step>
    requires ValidCluster(cluster)
  {
    if steps == [] then []
    else
      var front, s := steps[..|steps| - 1], steps[|steps| - 1];
      StepsOf(cluster, front, i)
      + (if s.at == i && CanNetStep(cluster, RunNet(cluster, front), s) then [s.step] else [])
  }

  /** Each node of the network goes through a run of its own. */
  lemma {:induction false} NodeRuns(cluster: Cluster, steps: seq<NetStep>, i: nat)
    requires ValidCluster(cluster) && i < |cluster|
    ensures RunNet(cluster, steps)[i] == RunFrom(cluster[i], Init(cluster[i]), StepsOf(cluster, steps, i))
  {
    if steps != [] {
      var front, s := steps[..|steps| - 1], steps[|steps| - 1];
      NodeRuns(cluster, front, i);
      RunOneMore(cluster[i], Init(cluster[i]), StepsOf(cluster, front, i), s.step);
      assert StepsOf(cluster, front, i) + [] == StepsOf(cluster, front, i);
    }
  }

  // ---------- nothing is invented ----------

  /** The announcement is what some published announcement parses to. */
  ghost predicate FromPublished(net: Net, a: Announcement) {
    exists j: nat, p, addresses :: IsPublished(net, j, p) && Delivered(p, addresses) == Ok(a)
  }

  ghost predicate PublishedGrows(net: Net, later: Net) {
    |net| == |later| && forall j :: 0 <= j < |net| ==> net[j].history.published <= later[j].history.published
  }

  lemma FromPublishedGrows(net: Net, later: Net, a: Announcement)
    requires PublishedGrows(net, later) && FromPublished(net, a)
    ensures FromPublished(later, a)
  {
    var j: nat, p, addresses :| IsPublished(net, j, p) && Delivered(p, addresses) == Ok(a);
    assert IsPublished(later, j, p);
  }

  /** All that node i has heard, in its registry or on the way there, was published. */
  ghost predicate HeardIsPublished(net: Net, m: Mesh, localId: string) {
    && (m.pending.Upserting? ==> FromPublished(net, m.pending.announcement))
    && forall id :: id in m.registry.agents && id != localId ==> FromPublished(net, m.registry.agents[id].payload)
  }

  lemma HeardGrows(net: Net, later: Net, m: Mesh, localId: string)
    requires PublishedGrows(net, later) && HeardIsPublished(net, m, localId)
    ensures HeardIsPublished(later, m, localId)
  {
    if m.pending.Upserting? {
      FromPublishedGrows(net, later, m.pending.announcement);
    }
    forall id | id in m.registry.agents && id != localId ensures FromPublished(later, m.registry.agents[id].payload) {
      FromPublishedGrows(net, later, m.registry.agents[id].payload);
    }
  }

  lemma PublishedStep(node: Node, m: Mesh, step: Step)
    requires Possible(m, step)
    ensures m.history.published <= NextHistory(node, m, step).published
  {
  }

  lemma PendingIsPublished(node: Node, net: Net, m: Mesh, s: NetStep)
    requires Possible(m, s.step) && Authentic(net, s)
    requires m.pending.Upserting? ==> FromPublished(net, m.pending.announcement)
    ensures var t := NextPending(node, m, s.step);
            t.Upserting? ==> FromPublished(net, t.announcement)
  {
    if s.step.Deliver? && s.step.event.Resolved? {
      var j: nat, p, addresses :| IsPublished(net, j, p) && s.step.event == RecordOf(p, addresses);
      var h := Heard(node.mac, LocalId(node), node.config.sharedSecretAuth, s.step.event);
      if h.Some? {
        assert Delivered(p, addresses) == Ok(h.value);
      }
    }
  }

  /** An entry after a step was there before, is the listener's, or is the node's own. */
  lemma EntryComesFrom(node: Node, own: Rule, foreign: Rule, m: Mesh, step: Step, id: string)
    requires CanStep(node, m, step) && Sound(node, own, foreign, m) && OwnRule(node, own)
    requires id in NextRegistry(node, m, step).agents && id != LocalId(node)
    ensures var a := NextRegistry(node, m, step).agents[id].payload;
            || (id in m.registry.agents && m.registry.agents[id].payload == a)
            || (m.pending.Upserting? && m.pending.announcement == a)
  {
    match step
    case Commit(actor) => assert own(m.flights[actor].copy);
    case CommitListener(_) =>
    case CommitSweep(stale) => EvictAgents(m.registry, stale);
    case RemoveLocal =>
    case _ =>
  }

  lemma NodeStepHears(node: Node, own: Rule, foreign: Rule, net: Net, m: Mesh, s: NetStep)
    requires CanStep(node, m, s.step) && Authentic(net, s)
    requires Sound(node, own, foreign, m) && OwnRule(node, own)
    requires HeardIsPublished(net, m, LocalId(node))
    ensures HeardIsPublished(net, Take(node, m, s.step), LocalId(node))
  {
    PendingIsPublished(node, net, m, s);
    var t := NextRegistry(node, m, s.step);
    forall id | id in t.agents && id != LocalId(node) ensures FromPublished(net, t.agents[id].payload) {
      EntryComesFrom(node, own, foreign, m, s.step, id);
    }
  }

  ghost predicate AllHeardIsPublished(cluster: Cluster, net: Net)
    requires |net| == |cluster|
  {
    forall i :: 0 <= i < |cluster| ==> HeardIsPublished(net, net[i], LocalId(cluster[i]))
  }

  lemma NodeStaysSound(cluster: Cluster, steps: seq<NetStep>, i: nat)
    requires ValidCluster(cluster) && i < |cluster|
    ensures Sound(cluster[i], OursOf(cluster[i]), ForeignTo(cluster[i]), RunNet(cluster, steps)[i])
    ensures OwnRule(cluster[i], OursOf(cluster[i]))
  {
    NodeRuns(cluster, steps, i);
    RunIsSound(cluster[i], StepsOf(cluster, steps, i));
    OursIsOwnRule(cluster[i]);
  }

  /** A node may move on as long as it has heard only what was published. */
  lemma OneNodeMoves(cluster: Cluster, net: Net, at: nat, m: Mesh)
    requires |net| == |cluster| && AllHeardIsPublished(cluster, net)
    requires at < |net| && net[at].history.published <= m.history.published
    requires HeardIsPublished(net, m, LocalId(cluster[at]))
    ensures AllHeardIsPublished(cluster, net[at := m])
  {
    var later := net[at := m];
    forall i | 0 <= i < |cluster| ensures HeardIsPublished(later, later[i], LocalId(cluster[i])) {
      assert HeardIsPublished(net, later[i], LocalId(cluster[i]));
      HeardGrows(net, later, later[i], LocalId(cluster[i]));
    }
  }

  lemma NetStepHears(cluster: Cluster, steps: seq<NetStep>, s: NetStep)
    requires ValidCluster(cluster)
    requires AllHeardIsPublished(cluster, RunNet(cluster, steps))
    requires CanNetStep(cluster, RunNet(cluster, steps), s)
    ensures var net := RunNet(cluster, steps);
            AllHeardIsPublished(cluster, net[s.at := Take(cluster[s.at], net[s.at], s.step)])
  {
    var net := RunNet(cluster, steps);
    var node := cluster[s.at];
    PublishedStep(node, net[s.at], s.step);
    NodeStaysSound(cluster, steps, s.at);
    NodeStepHears(node, OursOf(node), ForeignTo(node), net, net[s.at], s);
    OneNodeMoves(cluster, net, s.at, Take(node, net[s.at], s.step));
  }

  lemma {:induction false} RunHears(cluster: Cluster, steps: seq<NetStep>)
    requires ValidCluster(cluster)
    ensures AllHeardIsPublished(cluster, RunNet(cluster, steps))
  {
    if steps != [] {
      var front, s := steps[..|steps| - 1], steps[|steps| - 1];
      RunHears(cluster, front);
      if CanNetStep(cluster, RunNet(cluster, front), s) {
        NetStepHears(cluster, front, s);
      }
    }
  }

  /** What node j publishes is its own. */
  lemma PublishedIsOwn(cluster: Cluster, steps: seq<NetStep>, j: nat, p: Announcement)
    requires ValidCluster(cluster) && j < |cluster| && IsPublished(RunNet(cluster, steps), j, p)
    ensures Ours(cluster[j], p)
  {
    NodeRuns(cluster, steps, j);
    RunIsSound(cluster[j], StepsOf(cluster, steps, j));
    assert OursOf(cluster[j])(p);
  }

  predicate SameFields(a: Announcement, b: Announcement) {
    && a.instanceName == b.instanceName && a.port == b.port
    && a.agentId == b.agentId && a.role == b.role && a.project == b.project
    && a.branch == b.branch && a.status == b.status
  }

  /** The announcement that arrives: the typed fields are those published, and everything is exactly
      if the metadata keys are safe. */
  predicate ArrivesAs(p: Announcement, addresses: seq<IpAddr>, a: Announcement) {
    && Delivered(p, addresses) == Ok(a) && SameFields(a, p)
    && (a == p.(addresses := addresses) <==> SafeKeys(p.metadata.Keys))
  }

  lemma DeliveredArrivesAs(p: Announcement, addresses: seq<IpAddr>, a: Announcement)
    requires WellFormed(p) && Synced(p) && Delivered(p, addresses) == Ok(a)
    ensures ArrivesAs(p, addresses, a)
  {
    ParsedFieldsAreAnnounced(p, addresses);
    SyncedPrintsItsMetadata(p);
    ArrivesIffSafe(p, addresses);
    assert Arrived(p, addresses) == p.(addresses := addresses);
  }

  /** In every run of every cluster: the record of what a node has published can be read by a receiver at all
      exactly if no metadata key displaces a canonical one and none becomes blank. */
  lemma PublishedIsReadableIff(cluster: Cluster, steps: seq<NetStep>, j: nat, p: Announcement, addresses: seq<IpAddr>)
    requires ValidCluster(cluster) && j < |cluster| && IsPublished(RunNet(cluster, steps), j, p)
    ensures Delivered(p, addresses).Ok? <==> Readable(p.metadata.Keys)
  {
    PublishedIsOwn(cluster, steps, j, p);
    SyncedPrintsItsMetadata(p);
    ParsesIffReadable(p, addresses);
  }

  /** In every run of every cluster: a remote entry under an id is the parse of an announcement that
      the node with this id has published, and agrees with it on name, port, id, role, project,
      branch and status, whatever metadata keys the owner uses; it agrees in capabilities and
      metadata too exactly when those keys are safe on the wire. */
  lemma NothingIsInvented(cluster: Cluster, steps: seq<NetStep>, i: nat, id: string)
    requires ValidCluster(cluster) && i < |cluster| && id != LocalId(cluster[i])
    requires id in RunNet(cluster, steps)[i].registry.agents
    ensures var net := RunNet(cluster, steps);
            var entry := net[i].registry.agents[id].payload;
            exists j: nat, p, addresses ::
              && IsPublished(net, j, p) && LocalId(cluster[j]) == id
              && ArrivesAs(p, addresses, entry)
  {
    var net := RunNet(cluster, steps);
    var entry := net[i].registry.agents[id].payload;
    RunHears(cluster, steps);
    assert HeardIsPublished(net, net[i], LocalId(cluster[i]));
    assert FromPublished(net, entry);
    var j: nat, p, addresses :| IsPublished(net, j, p) && Delivered(p, addresses) == Ok(entry);
    PublishedIsOwn(cluster, steps, j, p);
    DeliveredArrivesAs(p, addresses, entry);
    NodeRuns(cluster, steps, i);
    EntryIsGood(cluster[i], StepsOf(cluster, steps, i), id);
  }

  // ---------- the last delivery wins ----------

  /** The operations of node i on its registry. */
  ghost function OpsAt(cluster: Cluster, steps: seq<NetStep>, i: nat): seq<Op>
    requires ValidCluster(cluster) && i < |cluster|
  {
    OpsOf(cluster[i], Init(cluster[i]), StepsOf(cluster, steps, i))
  }

  /** If the last announcement of node j that node i committed is the one node j holds now, then the
      entry of node j at node i, if it is there, equals that announcement, with the addresses node i
      saw, exactly when the metadata keys are safe on the wire. */
  lemma LastCommitWins(cluster: Cluster, steps: seq<NetStep>, i: nat, j: nat, addresses: seq<IpAddr>)
    requires ValidCluster(cluster) && i < |cluster| && j < |cluster| && i != j
    requires var net := RunNet(cluster, steps);
             var last := LastUpsert(OpsAt(cluster, steps, i), LocalId(cluster[j]));
             last.Some? && Delivered(net[j].local, addresses) == Ok(last.value.payload)
    requires LocalId(cluster[j]) in RunNet(cluster, steps)[i].registry.agents
    ensures var net := RunNet(cluster, steps);
            net[i].registry.agents[LocalId(cluster[j])].payload == net[j].local.(addresses := addresses)
            <==> SafeKeys(net[j].local.metadata.Keys)
  {
    var net := RunNet(cluster, steps);
    var id := LocalId(cluster[j]);
    NodeRuns(cluster, steps, i);
    MeshRunIsRegistryRun(cluster[i], StepsOf(cluster, steps, i));
    EntryIsLastUpsert(OpsAt(cluster, steps, i), id);
    LocalIsOwn(cluster, steps, j);
    var p := net[j].local;
    SyncedPrintsItsMetadata(p);
    ArrivesIffSafe(p, addresses);
    assert Arrived(p, addresses) == p.(addresses := addresses);
  }

  lemma LocalIsOwn(cluster: Cluster, steps: seq<NetStep>, j: nat)
    requires ValidCluster(cluster) && j < |cluster|
    ensures Ours(cluster[j], RunNet(cluster, steps)[j].local)
  {
    NodeRuns(cluster, steps, j);
    RunIsSound(cluster[j], StepsOf(cluster, steps, j));
    assert OursOf(cluster[j])(RunNet(cluster, steps)[j].local);
  }

  // ---------- deliveries and commits ----------

  type About = ServiceEvent -> bool

  /** The last service event of a kind that was delivered to a node. */
  function LastDelivered(node: Node, m: Mesh, steps: seq<Step>, about: About): Option<ServiceEvent> {
    if steps == [] then None
    else
      var front, step := steps[..|steps| - 1], steps[|steps| - 1];
      if step.Deliver? && about(step.event) && CanStep(node, RunFrom(node, m, front), step) then Some(step.event)
      else LastDelivered(node, m, front, about)
  }

  predicate ParsesTo(event: ServiceEvent, id: string) {
    && event.Resolved?
    && var r := Parse(event.fullname, event.port, event.addresses, event.properties);
       r.Ok? && r.value.agentId == id
  }

  function Parsing(id: string): About {
    event => ParsesTo(event, id)
  }

  function Hearing(node: Node, id: string): About {
    event => HeardAs(node, event, id)
  }

  function HeardIn(node: Node, event: Option<ServiceEvent>): Option<Announcement> {
    if event.Some? && event.value.Resolved?
    then Heard(node.mac, LocalId(node), node.config.sharedSecretAuth, event.value) else None
  }

  /** If the last announcement that parses as one of the agent is accepted, it is also the last one
      that is accepted. */
  lemma {:induction false} LastParsedIsLastHeard(node: Node, m: Mesh, steps: seq<Step>, id: string)
    requires var e := LastDelivered(node, m, steps, Parsing(id)); e.Some? && HeardAs(node, e.value, id)
    ensures LastDelivered(node, m, steps, Hearing(node, id)) == LastDelivered(node, m, steps, Parsing(id))
  {
    var front, step := steps[..|steps| - 1], steps[|steps| - 1];
    if !(step.Deliver? && ParsesTo(step.event, id) && CanStep(node, RunFrom(node, m, front), step)) {
      LastParsedIsLastHeard(node, m, front, id);
    }
  }

  /** What the listener has last accepted for an agent is on its way, or was committed last. */
  function LatestOf(m: Mesh, ops: seq<Op>, id: string): Option<Announcement> {
    if m.pending.Upserting? && m.pending.announcement.agentId == id then Some(m.pending.announcement)
    else match LastUpsert(ops, id)
      case Some(agent) => Some(agent.payload)
      case None => None
  }

  lemma LastUpsertOneMore(ops: seq<Op>, op: Op, id: string)
    ensures LastUpsert(ops + [op], id)
            == if IsUpsertOf(op, id) then Some(AgentInfo(op.announcement, op.seenAt)) else LastUpsert(ops, id)
  {
    assert (ops + [op])[..|ops + [op]| - 1] == ops;
  }

  lemma LatestStep(node: Node, own: Rule, foreign: Rule, m: Mesh, ops: seq<Op>, step: Step, id: string)
    requires CanStep(node, m, step) && Sound(node, own, foreign, m) && OwnRule(node, own)
    requires id != LocalId(node) && Take(node, m, step).tasks.listener != Stopped(false)
    ensures m.tasks.listener != Stopped(false)
    ensures var op := RegistryOp(node, m, step);
            LatestOf(Take(node, m, step), ops + (if op.Some? then [op.value] else []), id)
            == if step.Deliver? && HeardAs(node, step.event, id) then HeardIn(node, Some(step.event))
               else LatestOf(m, ops, id)
  {
    var op := RegistryOp(node, m, step);
    assert ops + [] == ops;
    if op.Some? {
      LastUpsertOneMore(ops, op.value, id);
    }
    if step.Commit? {
      assert own(m.flights[step.actor].copy);
    }
  }

  lemma SkippedStep(node: Node, m: Mesh, front: seq<Step>, step: Step)
    requires !CanStep(node, RunFrom(node, m, front), step)
    ensures RunFrom(node, m, front + [step]) == RunFrom(node, m, front)
    ensures OpsOf(node, m, front + [step]) == OpsOf(node, m, front)
  {
    RunOneMore(node, m, front, step);
    OpsOneMore(node, m, front, step);
    assert OpsOf(node, m, front) + [] == OpsOf(node, m, front);
  }

  lemma LatestStepOfRun(node: Node, own: Rule, foreign: Rule, m: Mesh, front: seq<Step>, step: Step, id: string)
    requires Sound(node, own, foreign, RunFrom(node, m, front)) && OwnRule(node, own)
    requires id != LocalId(node) && CanStep(node, RunFrom(node, m, front), step)
    requires RunFrom(node, m, front + [step]).tasks.listener != Stopped(false)
    ensures RunFrom(node, m, front).tasks.listener != Stopped(false)
    ensures LatestOf(RunFrom(node, m, front + [step]), OpsOf(node, m, front + [step]), id)
            == if step.Deliver? && HeardAs(node, step.event, id) then HeardIn(node, Some(step.event))
               else LatestOf(RunFrom(node, m, front), OpsOf(node, m, front), id)
  {
    RunOneMore(node, m, front, step);
    OpsOneMore(node, m, front, step);
    LatestStep(node, own, foreign, RunFrom(node, m, front), OpsOf(node, m, front), step, id);
  }

  lemma {:induction false} LastHeardFrom(node: Node, own: Rule, foreign: Rule, m: Mesh, steps: seq<Step>, id: string)
    requires Sound(node, own, foreign, m) && OwnRule(node, own) && ForeignRule(node, foreign)
    requires id != LocalId(node) && m.pending.Nothing?
    requires RunFrom(node, m, steps).tasks.listener != Stopped(false)
    ensures LatestOf(RunFrom(node, m, steps), OpsOf(node, m, steps), id)
            == HeardIn(node, LastDelivered(node, m, steps, Hearing(node, id)))
  {
    if steps != [] {
      var front, step := steps[..|steps| - 1], steps[|steps| - 1];
      assert steps == front + [step];
      if CanStep(node, RunFrom(node, m, front), step) {
        RunStaysSound(node, own, foreign, m, front);
        LatestStepOfRun(node, own, foreign, m, front, step, id);
      } else {
        SkippedStep(node, m, front, step);
      }
      LastHeardFrom(node, own, foreign, m, front, id);
    }
  }

  /** The listener handles one event at a time: unless it has panicked, what it last accepted for an
      agent is what it commits last. */
  lemma LastHeardIsLatest(node: Node, steps: seq<Step>, id: string)
    requires Valid(node.config) && id != LocalId(node)
    requires RunFrom(node, Init(node), steps).tasks.listener != Stopped(false)
    ensures LatestOf(RunFrom(node, Init(node), steps), OpsOf(node, Init(node), steps), id)
            == HeardIn(node, LastDelivered(node, Init(node), steps, Hearing(node, id)))
  {
    OursIsOwnRule(node);
    ForeignIsForeignRule(node);
    RunIsSound(node, []);
    LastHeardFrom(node, OursOf(node), ForeignTo(node), Init(node), steps, id);
  }

  /** Nothing of the agent is on its way through the listener, and it has not panicked. */
  predicate Listened(m: Mesh, id: string) {
    && m.tasks.listener != Stopped(false)
    && !(m.pending.Upserting? && m.pending.announcement.agentId == id)
  }

  /** Whatever was delayed, lost, repeated or reordered before: if the last record of node j that was
      delivered to node i is that of the announcement node j holds now, and node i accepts it, then
      once the listener is through with it the entry of node j at node i, if it is there, equals
      that announcement in every field and all metadata, with the addresses node i saw, exactly when
      the metadata keys are safe on the wire. */
  lemma LastDeliveryWins(cluster: Cluster, steps: seq<NetStep>, i: nat, j: nat, addresses: seq<IpAddr>)
    requires ValidCluster(cluster) && i < |cluster| && j < |cluster| && i != j
    requires var net, id := RunNet(cluster, steps), LocalId(cluster[j]);
             && LastDelivered(cluster[i], Init(cluster[i]), StepsOf(cluster, steps, i), Parsing(id))
                == Some(RecordOf(net[j].local, addresses))
             && HeardAs(cluster[i], RecordOf(net[j].local, addresses), id)
             && Listened(net[i], id) && id in net[i].registry.agents
    ensures var net := RunNet(cluster, steps);
            net[i].registry.agents[LocalId(cluster[j])].payload == net[j].local.(addresses := addresses)
            <==> SafeKeys(net[j].local.metadata.Keys)
  {
    var id := LocalId(cluster[j]);
    var mine := StepsOf(cluster, steps, i);
    NodeRuns(cluster, steps, i);
    LastParsedIsLastHeard(cluster[i], Init(cluster[i]), mine, id);
    LastHeardIsLatest(cluster[i], mine, id);
    LastCommitWins(cluster, steps, i, j, addresses);
  }
}
