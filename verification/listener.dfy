/** The listener's loop: events from the daemon drive the registry until browsing ends. */
module ListenerLoop {
  import opened Wrappers
  import opened Config
  import opened RegistrySpec
  import opened RegistryObject
  import opened ListenerSpec
  import opened MeshSpec

  /** The operation that an event leads to, if any. `victim` says which of several agents with the
      instance name of a removed service goes. */
  function ListenerOp(node: Node, event: ServiceEvent, now: nat, victim: Option<string>): Option<Op> {
    match event
    case Resolved(_, _, _, _) =>
      (match Heard(node.mac, LocalId(node), node.config.sharedSecretAuth, event)
       case Some(a) => Some(Upsert(a, now, Remote))
       case None => None)
    case Removed(fullname) =>
      if fullname != InstanceName(node.config) then Some(RemoveNamed(fullname, victim)) else None
    case BrowseEnded => None
    case Ignored => None
  }

  /** An event with the clock reading and the victim of its operation. */
  datatype Handled = Handled(event: ServiceEvent, now: nat, victim: Option<string>)

  function AfterEvents(node: Node, s: State, handled: seq<Handled>): State {
    if handled == [] then s
    else
      var before := AfterEvents(node, s, handled[..|handled| - 1]);
      var h := handled[|handled| - 1];
      match ListenerOp(node, h.event, h.now, h.victim)
      case None => before
      case Some(op) => Apply(before, op)
  }

  predicate LegalEvents(node: Node, s: State, ttl: nat, handled: seq<Handled>) {
    handled == []
    || (var front, h := handled[..|handled| - 1], handled[|handled| - 1];
        && LegalEvents(node, s, ttl, front)
        && match ListenerOp(node, h.event, h.now, h.victim)
           case None => true
           case Some(op) => Enabled(AfterEvents(node, s, front), ttl, op))
  }

  /** What an event comes to: an announcement that is heard is stored with the clock reading, the goodbye
      of another name takes one agent of that name, if there is one, and nothing else changes anything. */
  ghost predicate Obeyed(node: Node, event: ServiceEvent, now: nat, s: State, t: State) {
    match event
    case Resolved(_, _, _, _) =>
      (match Heard(node.mac, LocalId(node), node.config.sharedSecretAuth, event)
       case Some(a) => Stored(s, t, a, now, Remote)
       case None => t == s)
    case Removed(fullname) => if fullname != InstanceName(node.config) then Departed(s, t, fullname) else t == s
    case _ => t == s
  }

  lemma OpObeys(node: Node, event: ServiceEvent, now: nat, victim: Option<string>, s: State, ttl: nat)
    requires Keyed(s.agents)
    ensures var op := ListenerOp(node, event, now, victim);
            && (op.Some? && Enabled(s, ttl, op.value) ==> Obeyed(node, event, now, s, Apply(s, op.value)))
            && (op.None? ==> Obeyed(node, event, now, s, s))
  {
    match ListenerOp(node, event, now, victim)
    case Some(Upsert(a, _, _)) => UpsertTells(s, a, now, Remote);
    case Some(RemoveNamed(name, _)) =>
      if Enabled(s, ttl, RemoveNamed(name, victim)) {
        NamedRemovalTells(s, ttl, name, victim);
      }
    case _ =>
  }

  /** Does what one event asks for. */
  method HandleEvent(node: Node, event: ServiceEvent, now: nat,
                     registry: Registry) returns (ghost victim: Option<string>)
    requires registry.Valid()
    modifies registry
    ensures registry.Valid()
    ensures match ListenerOp(node, event, now, victim)
            case None => registry.Value() == old(registry.Value())
            case Some(op) =>
              && Enabled(old(registry.Value()), registry.ttl, op)
              && registry.Value() == Apply(old(registry.Value()), op)
    ensures Obeyed(node, event, now, old(registry.Value()), registry.Value())
  {
    ghost var before := registry.Value();
    victim := None;
    match event {
      case Resolved(_, _, _, _) =>
        match Heard(node.mac, LocalId(node), node.config.sharedSecretAuth, event) {
          case Some(announcement) => var _ := registry.UpsertWithOriginAt(announcement, now, Remote);
          case None =>
        }
      case Removed(fullname) =>
        if fullname != InstanceName(node.config) {
          var removed := registry.RemoveRemoteByInstanceName(fullname);
          victim := match removed case Some(agent) => Some(agent.payload.agentId) case None => None;
        }
      case BrowseEnded =>
      case Ignored =>
    }
    OpObeys(node, event, now, victim, before, registry.ttl);
  }

  lemma AfterOneEvent(node: Node, s: State, ttl: nat, handled: seq<Handled>, h: Handled)
    ensures AfterEvents(node, s, handled + [h])
            == match ListenerOp(node, h.event, h.now, h.victim)
               case None => AfterEvents(node, s, handled)
               case Some(op) => Apply(AfterEvents(node, s, handled), op)
    ensures LegalEvents(node, s, ttl, handled + [h])
            <==> LegalEvents(node, s, ttl, handled)
                 && match ListenerOp(node, h.event, h.now, h.victim)
                    case None => true
                    case Some(op) => Enabled(AfterEvents(node, s, handled), ttl, op)
  {
  }

  /** What was handled are the first events, each with its clock reading. */
  predicate AreFirst(handled: seq<Handled>, events: seq<ServiceEvent>, clock: seq<nat>)
    requires |clock| == |events|
  {
    && |handled| <= |events|
    && forall i :: 0 <= i < |handled| ==> handled[i].event == events[i] && handled[i].now == clock[i]
  }

  predicate NoneEnds(handled: seq<Handled>) {
    forall i :: 0 <= i < |handled| ==> !handled[i].event.BrowseEnded?
  }

  /** Events are handled up to the one that ends browsing, or all there are before the loop ends. */
  predicate StopsInTime(handled: seq<Handled>, count: nat) {
    || (|handled| == count && NoneEnds(handled))
    || (handled != [] && NoneEnds(handled[..|handled| - 1]) && handled[|handled| - 1].event.BrowseEnded?)
  }

  lemma OneMoreHandled(handled: seq<Handled>, h: Handled, events: seq<ServiceEvent>, clock: seq<nat>)
    requires |clock| == |events| && AreFirst(handled, events, clock) && |handled| < |events|
    requires h.event == events[|handled|] && h.now == clock[|handled|] && NoneEnds(handled)
    ensures AreFirst(handled + [h], events, clock)
    ensures NoneEnds(handled + [h]) <==> !h.event.BrowseEnded?
    ensures h.event.BrowseEnded? ==> forall count :: StopsInTime(handled + [h], count)
  {
  }

  /** Reads events until browsing ends, the shutdown signal is seen, or the channel closes, whichever
      comes first; the signal is seen after `signal` events. */
  method RunListener(node: Node, events: seq<ServiceEvent>, clock: seq<nat>, signal: nat, registry: Registry)
    returns (ghost handled: seq<Handled>)
    requires registry.Valid() && |clock| == |events|
    modifies registry
    ensures registry.Valid()
    ensures AreFirst(handled, events, clock)
    ensures StopsInTime(handled, if signal < |events| then signal else |events|)
    ensures LegalEvents(node, old(registry.Value()), registry.ttl, handled)
    ensures registry.Value() == AfterEvents(node, old(registry.Value()), handled)
  {
    var count := 0;
    handled := [];
    while count < |events| && count < signal
      invariant registry.Valid()
      invariant count == |handled| <= signal
      invariant AreFirst(handled, events, clock) && NoneEnds(handled)
      invariant LegalEvents(node, old(registry.Value()), registry.ttl, handled)
      invariant registry.Value() == AfterEvents(node, old(registry.Value()), handled)
    {
      var event, now := events[count], clock[count];
      ghost var victim := HandleEvent(node, event, now, registry);
      AfterOneEvent(node, old(registry.Value()), registry.ttl, handled, Handled(event, now, victim));
      OneMoreHandled(handled, Handled(event, now, victim), events, clock);
      handled := handled + [Handled(event, now, victim)];
      count := count + 1;
      if event.BrowseEnded? {
        return;
      }
    }
  }

  lemma {:induction false} EndedListenerStays(node: Node, m: Mesh, steps: seq<Step>)
    requires m.tasks.listener == Stopped(true) && m.pending.Nothing?
    ensures var t := RunFrom(node, m, steps); t.tasks.listener == Stopped(true) && t.pending.Nothing?
  {
    if steps != [] {
      EndedListenerStays(node, m, steps[..|steps| - 1]);
    }
  }

  /** The end of browsing changes nothing but that the listener has ended; in every run that follows no
      service event is delivered any more, and the listener commits nothing. */
  lemma BrowseEndIsFinal(node: Node, m: Mesh, now: nat, rest: seq<Step>, step: Step)
    requires Possible(m, Deliver(BrowseEnded, now)) && (step.Deliver? || step.CommitListener?)
    ensures var ended := Take(node, m, Deliver(BrowseEnded, now));
            && ended == m.(tasks := m.tasks.(listener := Stopped(true)))
            && !Possible(RunFrom(node, ended, rest), step)
  {
    EndedListenerStays(node, Take(node, m, Deliver(BrowseEnded, now)), rest);
  }

  /** Handling one event in the loop is delivering it and committing what it led to in the step
      system, when nothing comes in between. */
  lemma HandlingIsDelivering(node: Node, m: Mesh, event: ServiceEvent, now: nat, victim: Option<string>)
    requires m.tasks.listener.Alive? && m.pending.Nothing? && !event.BrowseEnded?
    ensures var delivered := Take(node, m, Deliver(event, now));
            match ListenerOp(node, event, now, victim)
            case None => delivered == m
            case Some(op) =>
              && Possible(delivered, CommitListener(victim))
              && RegistryOp(node, delivered, CommitListener(victim)) == Some(op)
              && Take(node, delivered, CommitListener(victim)) == m.(registry := Apply(m.registry, op))
  {
  }
}
