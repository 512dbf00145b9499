/** Clients that combine a snapshot of the registry with its event stream, over a channel that
    keeps a bounded number of events. The bridge subscribes before it takes its snapshot; the
    watch command takes its snapshot first. */
module Observers {
  import opened Types
  import opened RegistrySpec

  datatype Order = SubscribeFirst | SnapshotFirst
  datatype Phase = Unconnected | HalfConnected | Streaming | Ended

  /** `start` and `taken` are the lengths of the log at the subscription and at the snapshot. */
  datatype Client = Client(phase: Phase, start: nat, taken: nat, snapshot: View, received: seq<Event>)

  datatype World = World(registry: State, client: Client)

  datatype Step = RegistryStep(op: Op) | Connect | Receive | Disconnect

  const START := World(EMPTY, Client(Unconnected, 0, 0, map[], []))

  function Subscribed(w: World): Client {
    w.client.(start := |w.registry.log|)
  }

  function WithSnapshot(w: World): Client {
    w.client.(taken := |w.registry.log|, snapshot := Payloads(w.registry.agents))
  }

  function NextIndex(c: Client): nat {
    c.start + |c.received|
  }

  predicate CanStep(w: World, step: Step) {
    match step
    case RegistryStep(_) => true
    case Connect => w.client.phase == Unconnected || w.client.phase == HalfConnected
    case Receive => w.client.phase == Streaming && NextIndex(w.client) < |w.registry.log|
    case Disconnect => w.client.phase == Streaming
  }

  /** A receiver that is more than `capacity` events behind gets an error, and either loop ends
      on an error. */
  function Take(w: World, order: Order, capacity: nat, step: Step): World {
    match step
    case RegistryStep(op) => w.(registry := Apply(w.registry, op))
    case Connect =>
      if w.client.phase == Unconnected then
        w.(client := (if order == SubscribeFirst then Subscribed(w) else WithSnapshot(w)).(phase := HalfConnected))
      else
        w.(client := (if order == SubscribeFirst then WithSnapshot(w) else Subscribed(w)).(phase := Streaming))
    case Receive =>
      var next := NextIndex(w.client);
      if |w.registry.log| - next > capacity || next >= |w.registry.log| then w.(client := w.client.(phase := Ended))
      else w.(client := w.client.(received := w.client.received + [w.registry.log[next]]))
    case Disconnect => w.(client := w.client.(phase := Ended))
  }

  function RunWorld(order: Order, capacity: nat, steps: seq<Step>): World {
    if steps == [] then START
    else Take(RunWorld(order, capacity, steps[..|steps| - 1]), order, capacity, steps[|steps| - 1])
  }

  predicate LegalSteps(order: Order, capacity: nat, steps: seq<Step>) {
    steps == []
    || (LegalSteps(order, capacity, steps[..|steps| - 1])
        && CanStep(RunWorld(order, capacity, steps[..|steps| - 1]), steps[|steps| - 1]))
  }

  // ---------- what the client holds ----------

  predicate Connected(c: Client) {
    c.phase == Streaming || c.phase == Ended
  }

  /** What was received is the part of the log that starts at the subscription, without a gap;
      the snapshot is the view at the moment it was taken. */
  predicate Tracks(w: World, order: Order) {
    var c, log := w.client, w.registry.log;
    && Refines(w.registry)
    && c.start <= |log| && c.taken <= |log|
    && (!Connected(c) ==> c.received == [])
    && (c.phase == HalfConnected && order == SnapshotFirst ==> c.snapshot == Fold(map[], log[..c.taken]))
    && (c.phase == Unconnected ==> c.start == 0 && c.taken == 0)
    && (Connected(c) ==>
          && (if order == SubscribeFirst then c.start <= c.taken else c.taken <= c.start)
          && NextIndex(c) <= |log|
          && c.received == log[c.start..NextIndex(c)]
          && c.snapshot == Fold(map[], log[..c.taken]))
  }

  lemma {:induction false} EvictExtendsLog(s: State, ids: seq<string>)
    ensures s.log <= EvictAll(s, ids).log
  {
    if ids != [] {
      EvictExtendsLog(s, ids[..|ids| - 1]);
    }
  }

  lemma ApplyExtendsLog(s: State, op: Op)
    ensures s.log <= Apply(s, op).log
  {
    if op.Sweep? {
      EvictExtendsLog(s, op.stale);
    }
  }

  lemma PrefixSlices(log: seq<Event>, longer: seq<Event>, i: nat, j: nat)
    requires log <= longer && i <= j <= |log|
    ensures longer[i..j] == log[i..j] && longer[..j] == log[..j]
  {
  }

  lemma RegistryStepTracks(w: World, order: Order, op: Op)
    requires Tracks(w, order)
    ensures Tracks(w.(registry := Apply(w.registry, op)), order)
  {
    var c, log, longer := w.client, w.registry.log, Apply(w.registry, op).log;
    ApplyRefines(w.registry, op);
    ApplyExtendsLog(w.registry, op);
    PrefixSlices(log, longer, 0, c.taken);
    if Connected(c) {
      PrefixSlices(log, longer, c.start, NextIndex(c));
    }
  }

  lemma ConnectTracks(w: World, order: Order, capacity: nat)
    requires Tracks(w, order) && CanStep(w, Connect)
    ensures Tracks(Take(w, order, capacity, Connect), order)
  {
    var c, log := w.client, w.registry.log;
    assert log[..|log|] == log;
    var t := Take(w, order, capacity, Connect);
    assert t.client.received == [];
    assert log[t.client.start..t.client.start] == [];
  }

  lemma StepTracks(w: World, order: Order, capacity: nat, step: Step)
    requires Tracks(w, order) && CanStep(w, step)
    ensures Tracks(Take(w, order, capacity, step), order)
  {
    match step
    case RegistryStep(op) => RegistryStepTracks(w, order, op);
    case Connect => ConnectTracks(w, order, capacity);
    case Receive => ReceiveTracks(w, order, capacity);
    case Disconnect =>
  }

  lemma ReceiveTracks(w: World, order: Order, capacity: nat)
    requires Tracks(w, order) && CanStep(w, Receive)
    ensures Tracks(Take(w, order, capacity, Receive), order)
  {
    OneMoreSlice(w.registry.log, w.client.start, NextIndex(w.client));
  }

  lemma OneMoreSlice(log: seq<Event>, i: nat, j: nat)
    requires i <= j < |log|
    ensures log[i..j + 1] == log[i..j] + [log[j]]
  {
  }

  /** In every run, whatever the capacity, what a client holds is the log from its subscription,
      without a gap. */
  lemma {:induction false} ReceivedIsGapFree(order: Order, capacity: nat, steps: seq<Step>)
    requires LegalSteps(order, capacity, steps)
    ensures Tracks(RunWorld(order, capacity, steps), order)
  {
    if steps != [] {
      var front := steps[..|steps| - 1];
      ReceivedIsGapFree(order, capacity, front);
      StepTracks(RunWorld(order, capacity, front), order, capacity, steps[|steps| - 1]);
    }
  }

  lemma {:induction false} EndedStays(order: Order, capacity: nat, steps: seq<Step>, rest: seq<Step>)
    requires RunWorld(order, capacity, steps).client.phase == Ended && LegalSteps(order, capacity, steps + rest)
    ensures RunWorld(order, capacity, steps + rest).client == RunWorld(order, capacity, steps).client
  {
    if rest == [] {
      assert steps + rest == steps;
    } else {
      var n := |rest| - 1;
      assert (steps + rest)[..|steps + rest| - 1] == steps + rest[..n];
      EndedStays(order, capacity, steps, rest[..n]);
    }
  }

  /** A client that asks for an event while more than `capacity` behind gets none, and never gets one
      again; a client that is not so far behind gets the next event of the log. */
  lemma ReceivingEndsIffLagging(order: Order, capacity: nat, steps: seq<Step>, rest: seq<Step>)
    requires LegalSteps(order, capacity, steps + [Receive] + rest) && LegalSteps(order, capacity, steps + [Receive])
    ensures var w := RunWorld(order, capacity, steps);
            var next := NextIndex(w.client);
            && w.client.phase == Streaming && next < |w.registry.log|
            && (|w.registry.log| - next > capacity ==>
                  RunWorld(order, capacity, steps + [Receive] + rest).client == w.client.(phase := Ended))
            && (|w.registry.log| - next <= capacity ==>
                  RunWorld(order, capacity, steps + [Receive]).client
                  == w.client.(received := w.client.received + [w.registry.log[next]]))
  {
    RunOneMore(order, capacity, steps, Receive);
    var w := RunWorld(order, capacity, steps);
    if |w.registry.log| - NextIndex(w.client) > capacity {
      EndedStays(order, capacity, steps + [Receive], rest);
    }
  }

  // ---------- folding part of the log over another view ----------

  predicate Touched(events: seq<Event>, id: string) {
    exists e :: e in events && Subject(e) == id
  }

  predicate AgreeAt(v: View, w: View, id: string) {
    (id in v <==> id in w) && (id in v ==> v[id] == w[id])
  }

  lemma ViewsEqual(v: View, w: View)
    requires forall id :: AgreeAt(v, w, id)
    ensures v == w
  {
    assert forall id :: id in v ==> AgreeAt(v, w, id);
    assert forall id :: id in w ==> AgreeAt(v, w, id);
  }

  lemma TouchedOfConcat(a: seq<Event>, b: seq<Event>, id: string)
    ensures Touched(a + b, id) <==> Touched(a, id) || Touched(b, id)
  {
  }

  lemma AdvanceAt(v: View, w: View, e: Event, id: string)
    ensures Subject(e) == id ==> AgreeAt(Advance(v, e), Advance(w, e), id)
    ensures Subject(e) != id ==> AgreeAt(Advance(v, e), v, id)
  {
  }

  lemma TouchedStep(events: seq<Event>, id: string)
    requires events != []
    ensures var n := |events| - 1;
            Touched(events, id) <==> Touched(events[..n], id) || Subject(events[n]) == id
  {
  }

  /** The last event about an agent decides; without one, the agent stays as it was. */
  lemma {:induction false} LastEventDecides(v: View, w: View, events: seq<Event>, id: string)
    ensures Touched(events, id) || AgreeAt(v, w, id) <==> AgreeAt(Fold(v, events), Fold(w, events), id)
    ensures !Touched(events, id) ==> AgreeAt(Fold(v, events), v, id)
    ensures !Touched(events, id) ==> AgreeAt(Fold(w, events), w, id)
  {
    if events != [] {
      var front, e := events[..|events| - 1], events[|events| - 1];
      TouchedStep(events, id);
      LastEventDecides(v, w, front, id);
      AdvanceAt(Fold(v, front), Fold(w, front), e, id);
      AdvanceAt(Fold(w, front), Fold(v, front), e, id);
    }
  }

  lemma {:induction false} FoldOfConcat(v: View, a: seq<Event>, b: seq<Event>)
    ensures Fold(v, a + b) == Fold(Fold(v, a), b)
  {
    if b == [] {
      assert a + b == a;
    } else {
      var n := |b| - 1;
      assert (a + b)[..|a + b| - 1] == a + b[..n];
      FoldOfConcat(v, a, b[..n]);
    }
  }

  lemma FoldOfSplit(log: seq<Event>, i: nat, j: nat)
    requires i <= j <= |log|
    ensures Fold(map[], log[..j]) == Fold(Fold(map[], log[..i]), log[i..j])
  {
    assert log[..j] == log[..i] + log[i..j];
    FoldOfConcat(map[], log[..i], log[i..j]);
  }

  /** A snapshot taken after the subscription already contains some of the events that are folded
      over it again. That does no harm once everything up to the snapshot has been received. */
  lemma SnapshotPlusStream(log: seq<Event>, p: nat, q: nat, k: nat)
    requires p <= q <= k <= |log|
    ensures Fold(Fold(map[], log[..q]), log[p..k]) == Fold(map[], log[..k])
  {
    var atP, atQ := Fold(map[], log[..p]), Fold(map[], log[..q]);
    FoldOfSplit(log, p, k);
    forall id ensures AgreeAt(Fold(atQ, log[p..k]), Fold(atP, log[p..k]), id) {
      LastEventDecides(atQ, atP, log[p..k], id);
      if !Touched(log[p..k], id) {
        assert log[p..k] == log[p..q] + log[q..k];
        TouchedOfConcat(log[p..q], log[q..k], id);
        FoldOfSplit(log, p, q);
        LastEventDecides(atP, atP, log[p..q], id);
      }
    }
    ViewsEqual(Fold(atQ, log[p..k]), Fold(atP, log[p..k]));
  }

  // ---------- the two clients ----------

  function ViewOf(c: Client): View {
    Fold(c.snapshot, c.received)
  }

  /** The bridge: in every run, once a client has received everything up to its snapshot, its view
      is the registry as it was at the last received event; a client that is up to date sees the
      registry as it is. */
  lemma BridgeConverges(capacity: nat, steps: seq<Step>)
    requires LegalSteps(SubscribeFirst, capacity, steps)
    ensures var w := RunWorld(SubscribeFirst, capacity, steps);
            Connected(w.client) && w.client.taken <= NextIndex(w.client) ==>
              && NextIndex(w.client) <= |w.registry.log|
              && ViewOf(w.client) == Fold(map[], w.registry.log[..NextIndex(w.client)])
              && (NextIndex(w.client) == |w.registry.log| ==> ViewOf(w.client) == Payloads(w.registry.agents))
  {
    var w := RunWorld(SubscribeFirst, capacity, steps);
    ReceivedIsGapFree(SubscribeFirst, capacity, steps);
    var c, log := w.client, w.registry.log;
    if Connected(c) && c.taken <= NextIndex(c) {
      SnapshotPlusStream(log, c.start, c.taken, NextIndex(c));
      assert log[..|log|] == log;
    }
  }

  /** The watch command: a client that is up to date sees the registry as it is exactly when every
      agent that changed between snapshot and subscription was touched by a later event. */
  lemma WatchConvergesIff(capacity: nat, steps: seq<Step>)
    requires LegalSteps(SnapshotFirst, capacity, steps)
    ensures var w := RunWorld(SnapshotFirst, capacity, steps);
            var c, log := w.client, w.registry.log;
            Connected(c) && NextIndex(c) == |log| ==>
              && c.taken <= c.start <= |log|
              && (ViewOf(c) == Payloads(w.registry.agents) <==>
                  forall id :: Touched(log[c.start..], id)
                               || AgreeAt(Fold(map[], log[..c.taken]), Fold(map[], log[..c.start]), id))
  {
    var w := RunWorld(SnapshotFirst, capacity, steps);
    ReceivedIsGapFree(SnapshotFirst, capacity, steps);
    var c, log := w.client, w.registry.log;
    if Connected(c) && NextIndex(c) == |log| {
      var atTaken, atStart := Fold(map[], log[..c.taken]), Fold(map[], log[..c.start]);
      assert log[c.start..|log|] == log[c.start..] && log[..|log|] == log;
      FoldOfSplit(log, c.start, |log|);
      forall id ensures Touched(log[c.start..], id) || AgreeAt(atTaken, atStart, id)
                        <==> AgreeAt(ViewOf(c), Payloads(w.registry.agents), id)
      {
        LastEventDecides(atTaken, atStart, log[c.start..], id);
      }
      if forall id :: Touched(log[c.start..], id) || AgreeAt(atTaken, atStart, id) {
        ViewsEqual(ViewOf(c), Payloads(w.registry.agents));
      }
    }
  }

  lemma NothingKnownAtFirst()
    ensures Payloads(START.registry.agents) == map[]
  {
  }

  /** The gap is real: an agent that joins between snapshot and subscription is in the registry and
      missing from the view of a client that is up to date. */
  lemma WatchMissesJoin(capacity: nat, a: Announcement, seenAt: nat)
    ensures var steps := [Connect, RegistryStep(Upsert(a, seenAt, Remote)), Connect];
            var w := RunWorld(SnapshotFirst, capacity, steps);
            && LegalSteps(SnapshotFirst, capacity, steps)
            && w.client.phase == Streaming && NextIndex(w.client) == |w.registry.log|
            && a.agentId in w.registry.agents && a.agentId !in ViewOf(w.client)
  {
    var join := RegistryStep(Upsert(a, seenAt, Remote));
    NothingKnownAtFirst();
    RunOneMore(SnapshotFirst, capacity, [], Connect);
    RunOneMore(SnapshotFirst, capacity, [] + [Connect], join);
    RunOneMore(SnapshotFirst, capacity, [] + [Connect] + [join], Connect);
    assert [] + [Connect] + [join] + [Connect] == [Connect, join, Connect];
  }

  lemma RunOneMore(order: Order, capacity: nat, steps: seq<Step>, step: Step)
    ensures RunWorld(order, capacity, steps + [step]) == Take(RunWorld(order, capacity, steps), order, capacity, step)
    ensures LegalSteps(order, capacity, steps + [step])
            <==> LegalSteps(order, capacity, steps) && CanStep(RunWorld(order, capacity, steps), step)
  {
  }
}
