/** Startup of a node that advertises: from its first announcement to the first commit. */
module MeshStart {
  import opened Wrappers
  import opened Types
  import opened Config
  import opened RegistrySpec
  import opened MeshSpec
  import opened MeshRuns

  function StartSteps(now: nat): seq<Step> {
    [] + [Stamp(Boot, now)] + [Commit(Boot)]
  }

  predicate SameButHistory(a: Mesh, b: Mesh) {
    a.(history := b.history) == b
  }

  /** The first announcement of a node: signed where there is a secret. */
  lemma FirstLocal(node: Node)
    requires Valid(node.config)
    ensures LocalAnnouncement(node.config).Ok?
    ensures Init(node).local == Resigned(node, LocalAnnouncement(node.config).value)
    ensures !node.config.advertiseLocal ==>
              Init(node) == Mesh(Init(node).local, map[], true, EMPTY, Tasks(Off, Alive, Alive), None, Nothing,
                                 Running, Init(node).history)
    ensures node.config.advertiseLocal ==>
              Booting(Init(node)) && Init(node).flights == map[Boot := Announced(Init(node).local)]
  {
    LocalAnnouncementMeaning(node.config);
  }

  /** The state between the first announcement and its commit. */
  predicate Booting(m: Mesh) {
    && !m.booted && m.registry == EMPTY && m.tasks == Tasks(Off, Off, Alive)
    && m.sweepClock == None && m.pending == Nothing && m.shutdown == Running
  }

  function StartedNode(local: Announcement, now: nat, history: History): Mesh {
    Mesh(local, map[], true, ApplyUpsert(EMPTY, local, now, Local), Tasks(Alive, Alive, Alive), None, Nothing,
         Running, history)
  }

  lemma BootRun(node: Node, m: Mesh, now: nat)
    requires Booting(m) && m.flights == map[Boot := Announced(m.local)]
    ensures var t := RunFrom(node, m, StartSteps(now));
            t == StartedNode(m.local, now, t.history)
  {
    RunOneMore(node, m, [], Stamp(Boot, now));
    RunOneMore(node, m, [] + [Stamp(Boot, now)], Commit(Boot));
  }

  lemma StartRun(node: Node, now: nat)
    requires Valid(node.config) && node.config.advertiseLocal
    ensures var m := RunFrom(node, Init(node), StartSteps(now));
            m == StartedNode(Init(node).local, now, m.history)
  {
    FirstLocal(node);
    BootRun(node, Init(node), now);
  }
}
