/** The registry as a value: the known agents and the log of events that were sent, with one
    function for each operation that holds the write lock. A run is a sequence of operations. */
module RegistrySpec {
  import opened Wrappers
  import opened Types
  import opened Ordering

  datatype AgentInfo = AgentInfo(payload: Announcement, lastSeen: nat)

  predicate IsStale(agent: AgentInfo, now: nat, ttl: nat) {
    (if now < agent.lastSeen then 0 else now - agent.lastSeen) > ttl
  }

  datatype EventOrigin = Local | Remote
  datatype DepartureReason = Graceful | Expired

  datatype Event =
    | Joined(agent: AgentInfo, origin: EventOrigin)
    | Updated(previous: AgentInfo, current: AgentInfo, origin: EventOrigin)
    | Left(agent: AgentInfo, origin: EventOrigin, reason: DepartureReason)

  /** The agent an event is about. */
  function Subject(e: Event): string {
    match e
    case Joined(agent, _) => agent.payload.agentId
    case Updated(_, current, _) => current.payload.agentId
    case Left(agent, _, _) => agent.payload.agentId
  }

  type Agents = map<string, AgentInfo>

  datatype State = State(agents: Agents, log: seq<Event>)

  const EMPTY := State(map[], [])

  /** One lock scope. What the code leaves open is a parameter: the clock readings, which of
      several agents with one instance name is removed, and the order of a sweep. */
  datatype Op =
    | Upsert(announcement: Announcement, seenAt: nat, origin: EventOrigin)
    | Remove(id: string, origin: EventOrigin, reason: DepartureReason)
    | RemoveNamed(instanceName: string, victim: Option<string>)
    | Sweep(now: nat, stale: seq<string>)

  predicate Named(agents: Agents, id: string, instanceName: string) {
    id in agents && agents[id].payload.instanceName == instanceName
  }

  function StaleIds(agents: Agents, now: nat, ttl: nat): set<string> {
    set id | id in agents && IsStale(agents[id], now, ttl)
  }

  predicate Distinct(ids: seq<string>) {
    forall i, j :: 0 <= i < j < |ids| ==> ids[i] != ids[j]
  }

  predicate Enabled(s: State, ttl: nat, op: Op) {
    match op
    case Upsert(_, _, _) => true
    case Remove(_, _, _) => true
    case RemoveNamed(name, Some(id)) => Named(s.agents, id, name)
    case RemoveNamed(name, None) => forall id :: id in s.agents ==> !Named(s.agents, id, name)
    case Sweep(now, stale) => Distinct(stale) && Elems(stale) == StaleIds(s.agents, now, ttl)
  }

  function ApplyUpsert(s: State, a: Announcement, seenAt: nat, origin: EventOrigin): State {
    var id, incoming := a.agentId, AgentInfo(a, seenAt);
    if id !in s.agents then
      State(s.agents[id := incoming], s.log + [Joined(incoming, origin)])
    else if s.agents[id].payload == a then
      State(s.agents[id := s.agents[id].(lastSeen := seenAt)], s.log)
    else
      State(s.agents[id := incoming], s.log + [Updated(s.agents[id], incoming, origin)])
  }

  function ApplyRemove(s: State, id: string, origin: EventOrigin, reason: DepartureReason): State {
    if id in s.agents
    then State(s.agents - {id}, s.log + [Left(s.agents[id], origin, reason)])
    else s
  }

  function EvictAll(s: State, ids: seq<string>): State {
    if ids == [] then s
    else ApplyRemove(EvictAll(s, ids[..|ids| - 1]), ids[|ids| - 1], Remote, Expired)
  }

  function Apply(s: State, op: Op): State {
    match op
    case Upsert(a, seenAt, origin) => ApplyUpsert(s, a, seenAt, origin)
    case Remove(id, origin, reason) => ApplyRemove(s, id, origin, reason)
    case RemoveNamed(_, Some(id)) => ApplyRemove(s, id, Remote, Graceful)
    case RemoveNamed(_, None) => s
    case Sweep(_, stale) => EvictAll(s, stale)
  }

  function After(ops: seq<Op>): State {
    if ops == [] then EMPTY else Apply(After(ops[..|ops| - 1]), ops[|ops| - 1])
  }

  predicate Legal(ttl: nat, ops: seq<Op>) {
    ops == [] || (Legal(ttl, ops[..|ops| - 1]) && Enabled(After(ops[..|ops| - 1]), ttl, ops[|ops| - 1]))
  }

  lemma AfterOneMore(ops: seq<Op>, op: Op, ttl: nat)
    ensures After(ops + [op]) == Apply(After(ops), op)
    ensures Legal(ttl, ops + [op]) <==> Legal(ttl, ops) && Enabled(After(ops), ttl, op)
  {
  }

  /** Every agent is stored under its own id. */
  predicate Keyed(agents: Agents) {
    forall id :: id in agents ==> agents[id].payload.agentId == id
  }

  // ---------- folding the log ----------

  type View = map<string, Announcement>

  function Payloads(agents: Agents): View {
    map id | id in agents :: agents[id].payload
  }

  function Advance(view: View, e: Event): View {
    match e
    case Joined(agent, _) => view[agent.payload.agentId := agent.payload]
    case Updated(_, current, _) => view[current.payload.agentId := current.payload]
    case Left(agent, _, _) => view - {agent.payload.agentId}
  }

  function Fold(view: View, events: seq<Event>): View {
    if events == [] then view else Advance(Fold(view, events[..|events| - 1]), events[|events| - 1])
  }

  /** An event fits a view: joins are of unknown agents, updates start from the payload that is
      there and change it, departures are of the payload that is there. */
  predicate Fits(view: View, e: Event) {
    match e
    case Joined(agent, _) => agent.payload.agentId !in view
    case Updated(previous, current, _) =>
      && current.payload.agentId in view
      && view[current.payload.agentId] == previous.payload
      && previous.payload != current.payload
    case Left(agent, _, _) =>
      && agent.payload.agentId in view
      && view[agent.payload.agentId] == agent.payload
  }

  predicate Consistent(log: seq<Event>) {
    log == [] || (Consistent(log[..|log| - 1]) && Fits(Fold(map[], log[..|log| - 1]), log[|log| - 1]))
  }

  /** The log tells the whole story of the map, up to the time stamps. */
  predicate Refines(s: State) {
    && Keyed(s.agents)
    && Consistent(s.log)
    && Fold(map[], s.log) == Payloads(s.agents)
  }

  lemma LogGrows(log: seq<Event>, e: Event)
    ensures Fold(map[], log + [e]) == Advance(Fold(map[], log), e)
    ensures Consistent(log + [e]) <==> Consistent(log) && Fits(Fold(map[], log), e)
  {
  }

  lemma PayloadsWith(agents: Agents, a: Announcement, seenAt: nat)
    ensures Payloads(agents[a.agentId := AgentInfo(a, seenAt)]) == Payloads(agents)[a.agentId := a]
    ensures Keyed(agents) ==> Keyed(agents[a.agentId := AgentInfo(a, seenAt)])
  {
  }

  /** Sending an event that fits and storing what it says keeps log and map together. */
  lemma StoreRefines(s: State, a: Announcement, seenAt: nat, e: Event)
    requires Refines(s) && Fits(Payloads(s.agents), e)
    requires Advance(Payloads(s.agents), e) == Payloads(s.agents)[a.agentId := a]
    ensures Refines(State(s.agents[a.agentId := AgentInfo(a, seenAt)], s.log + [e]))
  {
    LogGrows(s.log, e);
    PayloadsWith(s.agents, a, seenAt);
  }

  lemma UpsertRefines(s: State, a: Announcement, seenAt: nat, origin: EventOrigin)
    requires Refines(s)
    ensures Refines(ApplyUpsert(s, a, seenAt, origin))
  {
    var id, incoming := a.agentId, AgentInfo(a, seenAt);
    if id !in s.agents {
      StoreRefines(s, a, seenAt, Joined(incoming, origin));
    } else if s.agents[id].payload == a {
      PayloadsWith(s.agents, a, seenAt);
      assert Payloads(s.agents)[id := a] == Payloads(s.agents);
    } else {
      StoreRefines(s, a, seenAt, Updated(s.agents[id], incoming, origin));
    }
  }

  lemma RemoveRefines(s: State, id: string, origin: EventOrigin, reason: DepartureReason)
    requires Refines(s)
    ensures Refines(ApplyRemove(s, id, origin, reason))
  {
  }

  lemma {:induction false} EvictRefines(s: State, ids: seq<string>)
    requires Refines(s)
    ensures Refines(EvictAll(s, ids))
  {
    if ids != [] {
      EvictRefines(s, ids[..|ids| - 1]);
      RemoveRefines(EvictAll(s, ids[..|ids| - 1]), ids[|ids| - 1], Remote, Expired);
    }
  }

  lemma ApplyRefines(s: State, op: Op)
    requires Refines(s)
    ensures Refines(Apply(s, op))
  {
    match op
    case Upsert(a, seenAt, origin) => UpsertRefines(s, a, seenAt, origin);
    case Remove(id, origin, reason) => RemoveRefines(s, id, origin, reason);
    case RemoveNamed(_, Some(id)) => RemoveRefines(s, id, Remote, Graceful);
    case RemoveNamed(_, None) =>
    case Sweep(_, stale) => EvictRefines(s, stale);
  }

  /** In every run the log is consistent, and folding it from the empty view gives the agents'
      payloads. */
  lemma {:induction false} LogRefinesRegistry(ops: seq<Op>)
    ensures Refines(After(ops))
  {
    if ops != [] {
      LogRefinesRegistry(ops[..|ops| - 1]);
      ApplyRefines(After(ops[..|ops| - 1]), ops[|ops| - 1]);
    }
  }

  /** A refresh sends nothing and changes no payload. */
  lemma RefreshIsSilent(s: State, a: Announcement, seenAt: nat, origin: EventOrigin)
    ensures var t := ApplyUpsert(s, a, seenAt, origin);
            t.log == s.log <==> a.agentId in s.agents && s.agents[a.agentId].payload == a
    ensures var t := ApplyUpsert(s, a, seenAt, origin);
            t.log == s.log <==> Payloads(t.agents) == Payloads(s.agents)
  {
    var t := ApplyUpsert(s, a, seenAt, origin);
    var id := a.agentId;
    assert id in Payloads(t.agents) && Payloads(t.agents)[id] == a;
    if id in s.agents && s.agents[id].payload == a {
      assert Payloads(t.agents) == Payloads(s.agents);
    } else {
      assert |t.log| == |s.log| + 1;
      assert id in Payloads(s.agents) ==> Payloads(s.agents)[id] != a;
    }
  }

  // ---------- what an event tells ----------

  /** The event is the whole difference between the two states: who came, changed or left, as it is stored
      now and as it was stored before. */
  predicate Tells(before: Agents, after: Agents, e: Event) {
    match e
    case Joined(agent, _) =>
      var id := agent.payload.agentId;
      id !in before && after == before[id := agent]
    case Updated(previous, current, _) =>
      var id := current.payload.agentId;
      && id in before && before[id] == previous
      && previous.payload != current.payload
      && after == before[id := current]
    case Left(agent, _, _) =>
      var id := agent.payload.agentId;
      id in before && before[id] == agent && after == before - {id}
  }

  /** One event was sent, and it tells the difference. */
  predicate ToldBy(s: State, t: State, e: Event) {
    t.log == s.log + [e] && Tells(s.agents, t.agents, e)
  }

  /** The announcement is stored under the stamp. Nothing was sent if that payload was there, and otherwise
      one event of the origin that tells what came. */
  ghost predicate Stored(s: State, t: State, a: Announcement, seenAt: nat, origin: EventOrigin) {
    && t.agents == s.agents[a.agentId := AgentInfo(a, seenAt)]
    && if a.agentId in s.agents && s.agents[a.agentId].payload == a then t.log == s.log
       else exists e :: ToldBy(s, t, e) && !e.Left? && e.origin == origin
  }

  /** An upsert stores what it was given, also where the stamp is older than the one that was there. */
  lemma UpsertTells(s: State, a: Announcement, seenAt: nat, origin: EventOrigin)
    ensures Stored(s, ApplyUpsert(s, a, seenAt, origin), a, seenAt, origin)
  {
    var id, t := a.agentId, ApplyUpsert(s, a, seenAt, origin);
    if id !in s.agents {
      assert ToldBy(s, t, Joined(AgentInfo(a, seenAt), origin));
    } else if s.agents[id].payload != a {
      assert ToldBy(s, t, Updated(s.agents[id], AgentInfo(a, seenAt), origin));
    }
  }

  /** One agent is gone, and the last event tells that it left. */
  predicate LeftAs(s: State, t: State, id: string, origin: EventOrigin, reason: DepartureReason) {
    id in s.agents && t.agents == s.agents - {id} && t.log == s.log + [Left(s.agents[id], origin, reason)]
  }

  ghost predicate IsNamed(agents: Agents, instanceName: string) {
    exists id :: Named(agents, id, instanceName)
  }

  /** A removal by instance name takes one agent of that name, if there is one, and reports that it left
      gracefully; the others keep payload and stamp. If there is none, nothing happens. */
  ghost predicate Departed(s: State, t: State, instanceName: string) {
    if IsNamed(s.agents, instanceName)
    then exists id :: Named(s.agents, id, instanceName) && LeftAs(s, t, id, Remote, Graceful)
    else t == s
  }

  lemma NamedRemovalTells(s: State, ttl: nat, instanceName: string, victim: Option<string>)
    requires Keyed(s.agents) && Enabled(s, ttl, RemoveNamed(instanceName, victim))
    ensures var t := Apply(s, RemoveNamed(instanceName, victim));
            && Departed(s, t, instanceName)
            && |t.agents| == |s.agents| - (if IsNamed(s.agents, instanceName) then 1 else 0)
            && forall id :: id in t.agents ==> id in s.agents && t.agents[id] == s.agents[id]
  {
    if victim.Some? {
      var t := Apply(s, RemoveNamed(instanceName, victim));
      assert LeftAs(s, t, victim.value, Remote, Graceful);
      assert t.agents.Keys == s.agents.Keys - {victim.value};
    }
  }

  // ---------- one agent's events ----------

  function EventsOf(log: seq<Event>, id: string): seq<Event> {
    if log == [] then []
    else EventsOf(log[..|log| - 1], id) + (if Subject(log[|log| - 1]) == id then [log[|log| - 1]] else [])
  }

  /** One stay of an agent: a join, any number of updates, and a departure once it is over. */
  datatype Stay = Stay(joined: Event, updates: seq<Event>, left: Option<Event>)

  predicate IsStay(stay: Stay) {
    && stay.joined.Joined?
    && (forall i :: 0 <= i < |stay.updates| ==> stay.updates[i].Updated?)
    && (stay.left.Some? ==> stay.left.value.Left?)
  }

  function EventsOfStay(stay: Stay): seq<Event> {
    [stay.joined] + stay.updates + (if stay.left.Some? then [stay.left.value] else [])
  }

  function EventsOfStays(stays: seq<Stay>): seq<Event> {
    if stays == [] then [] else EventsOfStays(stays[..|stays| - 1]) + EventsOfStay(stays[|stays| - 1])
  }

  /** Only the last stay may still be going on. */
  predicate AreStays(stays: seq<Stay>) {
    && (forall i :: 0 <= i < |stays| ==> IsStay(stays[i]))
    && (forall i :: 0 <= i < |stays| - 1 ==> stays[i].left.Some?)
  }

  predicate Present(stays: seq<Stay>) {
    stays != [] && stays[|stays| - 1].left.None?
  }

  /** The stays after one more event of the agent. */
  function Extend(stays: seq<Stay>, e: Event): seq<Stay> {
    match e
    case Joined(_, _) => stays + [Stay(e, [], None)]
    case Updated(_, _, _) =>
      if stays == [] then stays
      else
        var last := stays[|stays| - 1];
        stays[..|stays| - 1] + [last.(updates := last.updates + [e])]
    case Left(_, _, _) =>
      if stays == [] then stays
      else stays[..|stays| - 1] + [stays[|stays| - 1].(left := Some(e))]
  }

  lemma ExtendKeepsStays(stays: seq<Stay>, e: Event)
    requires AreStays(stays) && (e.Joined? <==> !Present(stays))
    ensures AreStays(Extend(stays, e))
    ensures Present(Extend(stays, e)) <==> !e.Left?
    ensures EventsOfStays(Extend(stays, e)) == EventsOfStays(stays) + [e]
  {
    var n := |stays|;
    var next := Extend(stays, e);
    if e.Joined? {
      assert next[..n] == stays;
      assert EventsOfStay(next[n]) == [e];
    } else {
      var last := stays[n - 1];
      assert next[..n - 1] == stays[..n - 1];
      assert EventsOfStay(next[n - 1]) == EventsOfStay(last) + [e];
    }
  }

  lemma {:induction false} ConsistentLogHasStays(log: seq<Event>, id: string) returns (stays: seq<Stay>)
    requires Consistent(log)
    ensures AreStays(stays) && EventsOfStays(stays) == EventsOf(log, id)
    ensures Present(stays) <==> id in Fold(map[], log)
  {
    if log == [] {
      stays := [];
    } else {
      var e := log[|log| - 1];
      stays := ConsistentLogHasStays(log[..|log| - 1], id);
      if Subject(e) == id {
        ExtendKeepsStays(stays, e);
        stays := Extend(stays, e);
      }
    }
  }

  /** In every run each agent's events are a sequence of stays, (Joined Updated* Left)*, the last
      of which is unfinished exactly while the agent is in the registry. */
  lemma AgentEventsAreStays(ops: seq<Op>, id: string)
    ensures exists stays :: AreStays(stays) && EventsOfStays(stays) == EventsOf(After(ops).log, id)
                            && (Present(stays) <==> id in After(ops).agents)
  {
    LogRefinesRegistry(ops);
    var stays := ConsistentLogHasStays(After(ops).log, id);
    assert id in Payloads(After(ops).agents) <==> id in After(ops).agents;
  }

  // ---------- the sweep ----------

  function Departures(agents: Agents, ids: seq<string>): seq<Event>
    requires forall id :: id in ids ==> id in agents
  {
    seq(|ids|, i requires 0 <= i < |ids| => Left(agents[ids[i]], Remote, Expired))
  }

  lemma {:induction false} EvictAgents(s: State, ids: seq<string>)
    ensures EvictAll(s, ids).agents == s.agents - Elems(ids)
  {
    if ids == [] {
      assert s.agents - Elems(ids) == s.agents;
    } else {
      var n := |ids| - 1;
      EvictAgents(s, ids[..n]);
      assert ids == ids[..n] + [ids[n]];
      ElemsOfConcat(ids[..n], [ids[n]]);
      assert s.agents - Elems(ids) == (s.agents - Elems(ids[..n])) - {ids[n]};
      if ids[n] !in EvictAll(s, ids[..n]).agents {
        assert (s.agents - Elems(ids[..n])) - {ids[n]} == s.agents - Elems(ids[..n]);
      }
    }
  }

  lemma {:induction false} EvictLog(s: State, ids: seq<string>)
    requires Distinct(ids) && forall id :: id in ids ==> id in s.agents
    ensures EvictAll(s, ids).log == s.log + Departures(s.agents, ids)
  {
    if ids == [] {
      assert s.log + Departures(s.agents, ids) == s.log;
    } else {
      var n := |ids| - 1;
      var front := ids[..n];
      EvictLog(s, front);
      EvictAgents(s, front);
      assert ids[n] !in Elems(front);
      assert EvictAll(s, front).agents[ids[n]] == s.agents[ids[n]];
      assert Departures(s.agents, ids) == Departures(s.agents, front) + [Left(s.agents[ids[n]], Remote, Expired)];
    }
  }

  /** A sweep removes exactly the agents not heard of for longer than the TTL, keeps the others as
      they are, and sends one Expired event for each removed agent in the order of removal;
      sweeping again at the same time finds nothing. */
  lemma SweepExact(s: State, ttl: nat, now: nat, stale: seq<string>)
    requires Enabled(s, ttl, Sweep(now, stale))
    ensures forall id :: id in stale ==> id in s.agents
    ensures var t := Apply(s, Sweep(now, stale));
            && (forall id :: id in t.agents <==> id in s.agents && !IsStale(s.agents[id], now, ttl))
            && (forall id :: id in t.agents ==> t.agents[id] == s.agents[id])
            && t.log == s.log + Departures(s.agents, stale)
            && StaleIds(t.agents, now, ttl) == {}
  {
    assert forall id :: id in stale <==> id in Elems(stale);
    EvictAgents(s, stale);
    EvictLog(s, stale);
  }

  // ---------- rules that every operation keeps ----------

  predicate EntriesObey(agents: Agents, rule: (string, Announcement) -> bool) {
    forall id :: id in agents ==> rule(id, agents[id].payload)
  }

  predicate LogObeys(log: seq<Event>, rule: Event -> bool) {
    forall i :: 0 <= i < |log| ==> rule(log[i])
  }

  lemma UpsertObeys(s: State, a: Announcement, seenAt: nat, origin: EventOrigin,
                    entryRule: (string, Announcement) -> bool, eventRule: Event -> bool)
    requires EntriesObey(s.agents, entryRule) && LogObeys(s.log, eventRule)
    requires entryRule(a.agentId, a)
    requires forall e: Event :: Subject(e) == a.agentId && e.origin == origin && !e.Left? ==> eventRule(e)
    ensures EntriesObey(ApplyUpsert(s, a, seenAt, origin).agents, entryRule)
    ensures LogObeys(ApplyUpsert(s, a, seenAt, origin).log, eventRule)
  {
  }

  lemma RemoveObeys(s: State, id: string, origin: EventOrigin, reason: DepartureReason,
                    entryRule: (string, Announcement) -> bool, eventRule: Event -> bool)
    requires Keyed(s.agents) && EntriesObey(s.agents, entryRule) && LogObeys(s.log, eventRule)
    requires forall agent: AgentInfo :: agent.payload.agentId == id ==> eventRule(Left(agent, origin, reason))
    ensures EntriesObey(ApplyRemove(s, id, origin, reason).agents, entryRule)
    ensures LogObeys(ApplyRemove(s, id, origin, reason).log, eventRule)
    ensures Keyed(ApplyRemove(s, id, origin, reason).agents)
  {
  }

  lemma {:induction false} EvictObeys(s: State, ids: seq<string>,
                    entryRule: (string, Announcement) -> bool, eventRule: Event -> bool)
    requires Keyed(s.agents) && EntriesObey(s.agents, entryRule) && LogObeys(s.log, eventRule)
    requires forall agent: AgentInfo :: eventRule(Left(agent, Remote, Expired))
    ensures EntriesObey(EvictAll(s, ids).agents, entryRule)
    ensures LogObeys(EvictAll(s, ids).log, eventRule)
    ensures Keyed(EvictAll(s, ids).agents)
  {
    if ids != [] {
      EvictObeys(s, ids[..|ids| - 1], entryRule, eventRule);
      RemoveObeys(EvictAll(s, ids[..|ids| - 1]), ids[|ids| - 1], Remote, Expired, entryRule, eventRule);
    }
  }
}
