/** The registry as an object: a map behind a lock and the events that were sent. Each method is
    one lock scope and is proved against the operation of the same name on the state. */
module RegistryObject {
  import opened Wrappers
  import opened Text
  import opened Types
  import opened Ordering
  import opened RegistrySpec

  datatype RegistryUpsert =
    | Inserted(agent: AgentInfo)
    | Replaced(previous: AgentInfo, current: AgentInfo)
    | Refreshed(agent: AgentInfo)

  /** What an upsert reports: what was stored, and what it replaced if that was different. */
  predicate Reports(r: RegistryUpsert, before: Agents, after: Agents, id: string) {
    && id in after
    && match r
       case Inserted(agent) => id !in before && agent == after[id]
       case Replaced(previous, current) =>
         id in before && previous == before[id] && current == after[id] && previous.payload != current.payload
       case Refreshed(agent) => id in before && agent == after[id] && before[id].payload == agent.payload
  }

  function Ids(agents: seq<AgentInfo>): seq<string> {
    seq(|agents|, i requires 0 <= i < |agents| => agents[i].payload.agentId)
  }

  /** Sorted by id, each id once. */
  predicate ById(agents: seq<AgentInfo>) {
    forall i, j :: 0 <= i < j < |agents| ==> Less(agents[i].payload.agentId, agents[j].payload.agentId)
  }

  function InsertById(agent: AgentInfo, agents: seq<AgentInfo>): seq<AgentInfo> {
    if agents == [] then [agent]
    else if Less(agents[0].payload.agentId, agent.payload.agentId)
    then [agents[0]] + InsertById(agent, agents[1..])
    else [agent] + agents
  }

  lemma {:induction false} InsertByIdMeaning(agent: AgentInfo, agents: seq<AgentInfo>)
    requires ById(agents)
    requires forall x :: x in agents ==> x.payload.agentId != agent.payload.agentId
    ensures ById(InsertById(agent, agents))
    ensures forall x :: x in InsertById(agent, agents) <==> x == agent || x in agents
  {
    if agents != [] {
      var first, rest := agents[0], agents[1..];
      LessTotal(first.payload.agentId, agent.payload.agentId);
      if Less(first.payload.agentId, agent.payload.agentId) {
        InsertByIdMeaning(agent, rest);
        var r := InsertById(agent, rest);
        assert forall i :: 0 <= i < |r| ==> r[i] in r;
      } else {
        forall j | 0 < j < |agents| ensures Less(agent.payload.agentId, agents[j].payload.agentId) {
          LessTransitive(agent.payload.agentId, first.payload.agentId, agents[j].payload.agentId);
        }
      }
    }
  }

  class Registry {
    var inner: Agents
    const ttl: nat
    var sent: seq<Event>

    ghost predicate Valid()
      reads this
    {
      Keyed(inner)
    }

    ghost function Value(): State
      reads this
    {
      State(inner, sent)
    }

    constructor (ttl: nat)
      ensures Valid() && Value() == EMPTY && this.ttl == ttl
    {
      inner := map[];
      this.ttl := ttl;
      sent := [];
    }

    method UpsertWithOriginAt(announcement: Announcement, seenAt: nat, origin: EventOrigin) returns (r: RegistryUpsert)
      requires Valid()
      modifies this
      ensures Valid()
      ensures Value() == Apply(old(Value()), Upsert(announcement, seenAt, origin))
      ensures Reports(r, old(inner), inner, announcement.agentId)
    {
      var incoming := AgentInfo(announcement, seenAt);
      var id := announcement.agentId;
      if id in inner {
        var existing := inner[id];
        if existing.payload == incoming.payload {
          var refreshed := existing.(lastSeen := seenAt);
          inner := inner[id := refreshed];
          r := Refreshed(refreshed);
        } else {
          inner := inner[id := incoming];
          sent := sent + [Updated(existing, incoming, origin)];
          r := Replaced(existing, incoming);
        }
      } else {
        inner := inner[id := incoming];
        sent := sent + [Joined(incoming, origin)];
        r := Inserted(incoming);
      }
    }

    method RemoveWithOrigin(id: string, origin: EventOrigin,
                            reason: DepartureReason) returns (removed: Option<AgentInfo>)
      requires Valid()
      modifies this
      ensures Valid()
      ensures Value() == Apply(old(Value()), Remove(id, origin, reason))
      ensures removed == if id in old(inner) then Some(old(inner)[id]) else None
    {
      if id in inner {
        var agent := inner[id];
        inner := inner - {id};
        sent := sent + [Left(agent, origin, reason)];
        removed := Some(agent);
      } else {
        removed := None;
      }
    }

    /** Looks for some agent with the instance name, in no particular order. */
    method FindByInstanceName(instanceName: string) returns (found: Option<string>)
      ensures found.Some? ==> Named(inner, found.value, instanceName)
      ensures found.None? ==> forall id :: id in inner ==> !Named(inner, id, instanceName)
    {
      var open := inner.Keys;
      while open != {}
        invariant open <= inner.Keys
        invariant forall id :: id in inner && id !in open ==> !Named(inner, id, instanceName)
        decreases |open|
      {
        var id :| id in open;
        if inner[id].payload.instanceName == instanceName {
          return Some(id);
        }
        open := open - {id};
      }
      return None;
    }

    method RemoveRemoteByInstanceName(instanceName: string) returns (removed: Option<AgentInfo>)
      requires Valid()
      modifies this
      ensures Valid()
      ensures var victim := match removed case Some(agent) => Some(agent.payload.agentId) case None => None;
              && Enabled(old(Value()), ttl, RemoveNamed(instanceName, victim))
              && Value() == Apply(old(Value()), RemoveNamed(instanceName, victim))
              && (removed.Some? ==> removed.value == old(inner)[removed.value.payload.agentId])
    {
      var found := FindByInstanceName(instanceName);
      match found {
        case None => removed := None;
        case Some(id) =>
          var agent := inner[id];
          inner := inner - {id};
          sent := sent + [Left(agent, Remote, Graceful)];
          removed := Some(agent);
      }
    }

    /** The first pass of a sweep: the ids of all stale agents, in no particular order. */
    method CollectStale(now: nat) returns (stale: seq<string>)
      ensures Distinct(stale) && Elems(stale) == StaleIds(inner, now, ttl)
    {
      stale := [];
      var open := inner.Keys;
      while open != {}
        invariant open <= inner.Keys
        invariant Distinct(stale) && Elems(stale) == StaleIds(inner, now, ttl) - open
        decreases |open|
      {
        var id :| id in open;
        assert id !in Elems(stale);
        if IsStale(inner[id], now, ttl) {
          ElemsOfConcat(stale, [id]);
          stale := stale + [id];
        }
        open := open - {id};
      }
    }

    /** Collects the stale ids, then removes them one by one, sending an event for each. */
    method EvictStaleAt(now: nat) returns (evicted: seq<AgentInfo>)
      requires Valid()
      modifies this
      ensures Valid()
      ensures Enabled(old(Value()), ttl, Sweep(now, Ids(evicted)))
      ensures Value() == Apply(old(Value()), Sweep(now, Ids(evicted)))
      ensures forall i :: 0 <= i < |evicted| ==>
                            evicted[i].payload.agentId in old(inner) && evicted[i] == old(inner)[evicted[i].payload.agentId]
    {
      var stale := CollectStale(now);
      evicted := [];
      var i := 0;
      assert stale[..0] == [];
      while i < |stale|
        invariant 0 <= i <= |stale|
        invariant Value() == EvictAll(old(Value()), stale[..i])
        invariant Ids(evicted) == stale[..i]
        invariant forall j :: 0 <= j < |evicted| ==>
                                evicted[j].payload.agentId in old(inner)
                                && evicted[j] == old(inner)[evicted[j].payload.agentId]
      {
        EvictAgents(old(Value()), stale[..i]);
        assert stale[i] in Elems(stale);
        assert stale[i] !in Elems(stale[..i]);
        assert stale[..i + 1] == stale[..i] + [stale[i]];
        var agent := inner[stale[i]];
        inner := inner - {stale[i]};
        sent := sent + [Left(agent, Remote, Expired)];
        evicted := evicted + [agent];
        i := i + 1;
      }
      assert stale[..i] == stale;
      EvictAgents(old(Value()), stale);
    }

    /** All agents that satisfy the filter and no others, in the order of their ids. */
    method Query(filter: AgentInfo -> bool) returns (agents: seq<AgentInfo>)
      requires Valid()
      ensures ById(agents)
      ensures forall x :: x in agents <==> x.payload.agentId in inner && inner[x.payload.agentId] == x && filter(x)
    {
      agents := [];
      var open := inner.Keys;
      while open != {}
        invariant open <= inner.Keys
        invariant ById(agents)
        invariant forall x :: x in agents <==>
                    x.payload.agentId in inner && x.payload.agentId !in open
                    && inner[x.payload.agentId] == x && filter(x)
        decreases |open|
      {
        var id :| id in open;
        var agent := inner[id];
        if filter(agent) {
          InsertByIdMeaning(agent, agents);
          agents := InsertById(agent, agents);
        }
        open := open - {id};
      }
    }
  }

  /** There is one way to list the agents of a registry that satisfy a filter in the order of
      their ids. */
  lemma {:induction false} ListingUnique(a: seq<AgentInfo>, b: seq<AgentInfo>)
    requires ById(a) && ById(b) && forall x :: x in a <==> x in b
    ensures a == b
  {
    assert a != [] ==> a[0] in a;
    assert b != [] ==> b[0] in b;
    if a != [] && b != [] {
      assert a[0] in b && b[0] in a;
      FirstIsLeast(a, b);
      RestOfListing(a);
      RestOfListing(b);
      ListingUnique(a[1..], b[1..]);
      assert a == [a[0]] + a[1..] && b == [b[0]] + b[1..];
    }
  }

  lemma RestOfListing(a: seq<AgentInfo>)
    requires ById(a) && a != []
    ensures forall x :: x in a[1..] <==> x in a && x != a[0]
  {
    LessIrreflexive(a[0].payload.agentId);
    forall i | 0 <= i < |a| ensures i > 0 ==> a[i] != a[0] {
    }
    assert a == [a[0]] + a[1..];
  }

  lemma FirstIsLeast(a: seq<AgentInfo>, b: seq<AgentInfo>)
    requires ById(a) && ById(b) && a != [] && b != [] && a[0] in b && b[0] in a
    ensures a[0] == b[0]
  {
    if a[0] != b[0] {
      var x, y := a[0].payload.agentId, b[0].payload.agentId;
      LessTransitive(x, y, x);
      LessIrreflexive(x);
    }
  }
}
