/** Runs that show the two scheduling hypotheses cannot be dropped. No call fails in any of them. */
module LifecycleWitness {
  import opened Domain
  import opened Allocator
  import opened Lifecycle
  import opened LifecycleOneTearer
  import opened LifecycleProgress

  /** A run in which no repository call fails, together with the state it has reached. */
  datatype Trail = Trail(ss: seq<System>, steps: seq<Step>) {
    ghost predicate Runs(cfg: Settings) {
      Run(cfg, ss, steps) && ReliableRun(ss, steps)
    }

    function Last(): System
      requires ss != []
    {
      ss[|ss| - 1]
    }
  }

  lemma Lengthen(cfg: Settings, tr: Trail, step: Step) returns (longer: Trail)
    requires tr.Runs(cfg) && Enabled(cfg, tr.Last(), step) && Reliable(tr.Last(), step)
    ensures longer.Runs(cfg) && longer.Last() == Apply(cfg, tr.Last(), step)
    ensures longer.ss == tr.ss + [longer.Last()] && longer.steps == tr.steps + [step]
  {
    longer := Trail(tr.ss + [Apply(cfg, tr.Last(), step)], tr.steps + [step]);
  }

  lemma Extend(cfg: Settings, tr: Trail, step: Step) returns (longer: Trail)
    requires tr.Runs(cfg) && Enabled(cfg, tr.Last(), step) && Reliable(tr.Last(), step)
    ensures longer.Runs(cfg) && longer.Last() == Apply(cfg, tr.Last(), step)
    ensures longer.ss == tr.ss + [longer.Last()] && longer.steps == tr.steps + [step]
    ensures AtomicDeletes(tr.ss, tr.steps) && AtomicDelete(tr.Last(), step) ==> AtomicDeletes(longer.ss, longer.steps)
  {
    longer := Lengthen(cfg, tr, step);
    AtomicAppend(tr.ss, tr.steps, longer.Last(), step);
  }

  lemma AtomicAppend(ss: seq<System>, steps: seq<Step>, last: System, step: Step)
    requires |ss| > 0
    ensures AtomicDeletes(ss, steps) && AtomicDelete(ss[|ss| - 1], step) ==> AtomicDeletes(ss + [last], steps + [step])
  {
  }

  /** The same where nothing is said about delete requests. */
  lemma Then(cfg: Settings, tr: Trail, step: Step) returns (longer: Trail)
    requires tr.Runs(cfg) && Enabled(cfg, tr.Last(), step) && Reliable(tr.Last(), step)
    ensures longer.Runs(cfg) && longer.Last() == Apply(cfg, tr.Last(), step)
    ensures longer.ss == tr.ss + [longer.Last()]
  {
    longer := Lengthen(cfg, tr, step);
  }

  const OWNER := ClientId("agent")

  const WORKER := WorkerUser("agent", 2000, 2000)

  /** One client, one directory slot, the Postgres backend. */
  const CFG := Settings(1, 0, 100, 10, map[OWNER := WORKER], {Postgres})

  const LINK := PostgresInfo(PostgresConnection("127.0.0.1", 5432, "db", "user", "secret"))

  function Fresh(n: Ulid): Cluster {
    Cluster(ClusterId(n), OWNER, ServiceSpec(Postgres, false), 5, 0, Spawning(0), None, 0)
  }

  /** The initial state, with the clock at zero. */
  const START := System(map[], {}, {}, {}, {}, 0, Booting, map[], map[], [], {})

  lemma Serve() returns (tr: Trail)
    ensures tr.Runs(CFG) && tr.Last() == START.(phase := Serving) && AtomicDeletes(tr.ss, tr.steps)
  {
    tr := Trail([START], []);
    tr := Extend(CFG, tr, ReconList(true));
    tr := Extend(CFG, tr, ReconDone);
  }

  /** Creating cluster `n` when its owner has no row: it gets slot 0. */
  lemma CreateFirst(tr: Trail, n: Ulid) returns (longer: Trail)
    requires tr.Runs(CFG) && tr.Last().phase.Serving? && tr.Last().rows == map[]
    requires ClusterId(n) !in tr.Last().issued && tr.Last().clock == 0
    ensures longer.Runs(CFG) && |longer.ss| == |tr.ss| + 1
    ensures AtomicDeletes(tr.ss, tr.steps)
            && NoWritePending(tr.Last()) ==>
              AtomicDeletes(longer.ss, longer.steps)
    ensures var s := tr.Last();
            longer.Last() == s.(rows := map[ClusterId(n) := Fresh(n)], issued := s.issued + {ClusterId(n)},
                                spawns := s.spawns[ClusterId(n) := Spawn(Fresh(n), Launching)])
  {
    var s := tr.Last();
    assert RowsOf(s.rows, OWNER) == {};
    assert UsedSlots(s.rows, OWNER) == {};
    longer := Extend(CFG, tr, Insert(ClusterId(n), OWNER, ServiceSpec(Postgres, false), 5, 0));
  }

  function Placed(n: Ulid): Cluster {
    Fresh(n).(worker := Some(WORKER))
  }

  function Mounted(n: Ulid): Resource {
    Resource(ClusterId(n), Container(""), "agent", 0)
  }

  function Written(n: Ulid): Holding {
    Holding("agent", 0, ClusterId(n))
  }

  /** From a row just created to a prepared directory. */
  lemma Provision(tr: Trail, n: Ulid) returns (longer: Trail)
    requires tr.Runs(CFG) && ClusterId(n) in tr.Last().spawns && tr.Last().spawns[ClusterId(n)] == Spawn(Fresh(n), Launching)
    requires tr.Last().rows == map[ClusterId(n) := Fresh(n)]
    requires AtomicDeletes(tr.ss, tr.steps) && NoWritePending(tr.Last())
    ensures longer.Runs(CFG) && AtomicDeletes(longer.ss, longer.steps)
    ensures var s := tr.Last(); var id := ClusterId(n);
            longer.Last() == s.(rows := map[id := Placed(n)], dirs := s.dirs + {Written(n)},
                                tokens := s.tokens[id := false],
                                spawns := s.spawns[id := Spawn(Placed(n), AtBackend([Container("")]))])
  {
    var id := ClusterId(n);
    longer := Extend(CFG, tr, SpawnStep(id, Launch));
    longer := Extend(CFG, longer, SpawnStep(id, SetWorker(true)));
    assert longer.Last().rows == map[id := Placed(n)];
    longer := Extend(CFG, longer, SpawnStep(id, Prepare(None, true)));
    assert longer.Last().spawns == tr.Last().spawns[id := Spawn(Placed(n), AtBackend([Container("")]))];
  }

  ghost predicate NoWritePending(s: System) {
    forall d :: 0 <= d < |s.tasks| ==> !s.tasks[d].DeleteWrite?
  }

  /** From a prepared directory to a running container. */
  lemma RunContainer(tr: Trail, n: Ulid) returns (longer: Trail)
    requires tr.Runs(CFG) && ClusterId(n) in tr.Last().spawns
    requires tr.Last().spawns[ClusterId(n)] == Spawn(Placed(n), AtBackend([Container("")]))
    requires AtomicDeletes(tr.ss, tr.steps) && NoWritePending(tr.Last())
    ensures longer.Runs(CFG) && AtomicDeletes(longer.ss, longer.steps)
    ensures var s := tr.Last(); var id := ClusterId(n);
            longer.Last() == s.(res := s.res + {Mounted(n)},
                                spawns := s.spawns[id := Spawn(Placed(n), AtRecheck(Connected(LINK)))])
  {
    var id := ClusterId(n);
    longer := Extend(CFG, tr, SpawnStep(id, Create(None, true)));
    longer := Extend(CFG, longer, SpawnStep(id, BackendReturns(Connected(LINK))));
    assert longer.Last().spawns == tr.Last().spawns[id := Spawn(Placed(n), AtRecheck(Connected(LINK)))];
  }

  /** From a running container to a spawn task that has re-checked its row. */
  lemma Recheck1(tr: Trail, n: Ulid) returns (longer: Trail)
    requires tr.Runs(CFG) && ClusterId(n) in tr.Last().spawns
    requires tr.Last().spawns[ClusterId(n)] == Spawn(Placed(n), AtRecheck(Connected(LINK)))
    requires tr.Last().rows == map[ClusterId(n) := Placed(n)]
    requires AtomicDeletes(tr.ss, tr.steps) && NoWritePending(tr.Last())
    ensures longer.Runs(CFG) && AtomicDeletes(longer.ss, longer.steps)
    ensures longer.Last()
            == tr.Last().(spawns := tr.Last().spawns[ClusterId(n) := Spawn(Placed(n), AtPersist(Connected(LINK), Spawning(0)))])
  {
    longer := Extend(CFG, tr, SpawnStep(ClusterId(n), Recheck(true)));
  }

  /** A run from a fresh start to a spawn of cluster 1 about to write its conclusion. */
  lemma AboutToConclude() returns (tr: Trail)
    ensures tr.Runs(CFG) && AtomicDeletes(tr.ss, tr.steps)
    ensures var id := ClusterId(1);
            tr.Last() == START.(phase := Serving, rows := map[id := Placed(1)], issued := {id}, res := {Mounted(1)},
                                dirs := {Written(1)}, tokens := map[id := false],
                                spawns := map[id := Spawn(Placed(1), AtPersist(Connected(LINK), Spawning(0)))])
  {
    tr := Serve();
    tr := CreateFirst(tr, 1);
    tr := Provision(tr, 1);
    tr := RunContainer(tr, 1);
    tr := Recheck1(tr, 1);
  }

  /** One delete request, read and written back at once. */
  lemma DeleteNow(tr: Trail) returns (longer: Trail)
    requires tr.Runs(CFG) && AtomicDeletes(tr.ss, tr.steps) && tr.Last().rows == map[ClusterId(1) := Placed(1)]
    requires tr.Last().phase.Serving? && tr.Last().tasks == [] && tr.Last().clock == 0
    ensures longer.Runs(CFG) && AtomicDeletes(longer.ss, longer.steps)
    ensures longer.Last() == tr.Last().(rows := map[ClusterId(1) := Doomed(1)],
                                        tasks := [Dispatch(Doomed(1), CancelSpawn, false)])
  {
    var id := ClusterId(1);
    longer := Extend(CFG, tr, DeleteArrives(id, OWNER));
    longer := Extend(CFG, longer, TaskStep(0, Read(0, true)));
    longer := Extend(CFG, longer, TaskStep(0, Write(true)));
    assert longer.Last().rows == map[id := Doomed(1)];
  }

  /** A spawn task writes its conclusion over the delete. */
  lemma Overwrite(tr: Trail) returns (longer: Trail)
    requires tr.Runs(CFG) && AtomicDeletes(tr.ss, tr.steps) && NoWritePending(tr.Last())
    requires var id := ClusterId(1); var s := tr.Last();
             && s.rows == map[id := Doomed(1)] && s.clock == 0
             && s.spawns == map[id := Spawn(Placed(1), AtPersist(Connected(LINK), Spawning(0)))]
    ensures longer.Runs(CFG) && AtomicDeletes(longer.ss, longer.steps) && longer.ss == tr.ss + [longer.Last()]
    ensures longer.Last() == tr.Last().(rows := map[ClusterId(1) := Served(1)],
                                        spawns := map[ClusterId(1) := Spawn(Placed(1), Finishing)])
  {
    longer := Extend(CFG, tr, SpawnStep(ClusterId(1), Persist(0, true)));
    assert longer.Last().rows == map[ClusterId(1) := Served(1)];
  }

  /** The spawn task leaves the registry, and the request then finds no token to cancel. */
  lemma CancelTooLate(tr: Trail) returns (longer: Trail)
    requires tr.Runs(CFG) && AtomicDeletes(tr.ss, tr.steps)
    requires var id := ClusterId(1); var s := tr.Last();
             && s.tokens == map[id := false] && s.spawns == map[id := Spawn(Placed(1), Finishing)]
             && s.tasks == [Dispatch(Doomed(1), CancelSpawn, false)]
    ensures longer.Runs(CFG) && AtomicDeletes(longer.ss, longer.steps)
    ensures |longer.ss| > |tr.ss| && longer.ss[..|tr.ss|] == tr.ss
    ensures longer.Last() == tr.Last().(tokens := map[], spawns := map[], tasks := [Done])
  {
    longer := Extend(CFG, tr, SpawnStep(ClusterId(1), Unregister));
    assert longer.Last().spawns == map[] && longer.Last().tokens == map[];
    longer := Extend(CFG, longer, TaskStep(0, Act));
  }

  /** A delete whose read and write-back both fall between a spawn task's re-check and its write is
      accepted and then overwritten: the row goes from Deleting back to Ready, the tasks end, the container
      runs on, and nobody has torn anything down. Delete requests are atomic in this run. */
  lemma DeleteCanBeLost() returns (tr: Trail, k: nat, id: ClusterId)
    ensures tr.Runs(CFG) && AtomicDeletes(tr.ss, tr.steps) && k + 1 < |tr.ss|
    ensures id in tr.ss[k].rows && tr.ss[k].rows[id].state == Deleting(0, UserRequested)
    ensures id in tr.ss[k + 1].rows && tr.ss[k + 1].rows[id].state.Ready?
    ensures Idle(tr.Last()) && id in tr.Last().rows && tr.Last().rows[id].state.Ready?
    ensures HasResources(tr.Last(), id) && tr.Last().tearers == {}
  {
    id := ClusterId(1);
    tr := AboutToConclude();
    tr := DeleteNow(tr);
    k := |tr.ss| - 1;
    var accepted := tr.Last();
    tr := Overwrite(tr);
    var overwritten := tr.Last();
    tr := CancelTooLate(tr);
    assert tr.ss[k] == accepted && tr.ss[k + 1] == overwritten;
    assert Mounted(1) in tr.Last().res;
  }

  function Served(n: Ulid): Cluster {
    Placed(n).(state := Ready(0, 5, LINK))
  }

  function Doomed(n: Ulid): Cluster {
    Placed(n).(state := Deleting(0, UserRequested))
  }

  /** The spawn of cluster 1 writes its conclusion and leaves the registry. */
  lemma ConcludeServed(tr: Trail) returns (longer: Trail)
    requires tr.Runs(CFG)
    requires var id := ClusterId(1); var s := tr.Last();
             && s.rows == map[id := Placed(1)] && s.tokens == map[id := false] && s.clock == 0
             && s.spawns == map[id := Spawn(Placed(1), AtPersist(Connected(LINK), Spawning(0)))]
    ensures longer.Runs(CFG)
    ensures longer.Last() == tr.Last().(rows := map[ClusterId(1) := Served(1)], tokens := map[], spawns := map[])
  {
    var id := ClusterId(1);
    longer := Then(CFG, tr, SpawnStep(id, Persist(0, true)));
    assert longer.Last().rows == map[id := Served(1)];
    longer := Then(CFG, longer, SpawnStep(id, Unregister));
    assert longer.Last().spawns == map[] && longer.Last().tokens == map[];
  }

  /** Cluster 1 is Ready and its spawn task has ended. */
  lemma ServedRun() returns (tr: Trail)
    ensures tr.Runs(CFG)
    ensures var id := ClusterId(1);
            tr.Last() == START.(phase := Serving, rows := map[id := Served(1)], issued := {id}, res := {Mounted(1)},
                                dirs := {Written(1)})
  {
    tr := AboutToConclude();
    tr := ConcludeServed(tr);
  }

  /** A delete request has read the row while it was Spawning, and writes it back once it is Ready. */
  lemma ReadThenServed() returns (tr: Trail)
    ensures tr.Runs(CFG)
    ensures var id := ClusterId(1);
            tr.Last() == START.(phase := Serving, rows := map[id := Served(1)], issued := {id}, res := {Mounted(1)},
                                dirs := {Written(1)},
                                tasks := [DeleteWrite(Placed(1), Deleting(0, UserRequested), CancelSpawn, false)])
  {
    var id := ClusterId(1);
    tr := AboutToConclude();
    tr := Then(CFG, tr, DeleteArrives(id, OWNER));
    tr := Then(CFG, tr, TaskStep(0, Read(0, true)));
    tr := ConcludeServed(tr);
  }

  /** Without atomic delete requests a cluster can be left Deleting with nobody to tear it down: all tasks
      have ended, its container runs on, the sweep passes it over and another delete is told that somebody
      else has it. Only a restart helps. */
  lemma DeleteCanBeForgotten() returns (tr: Trail, id: ClusterId)
    ensures tr.Runs(CFG) && Idle(tr.Last()) && tr.Last().leaked == {}
    ensures id in tr.Last().rows && tr.Last().rows[id].state == Deleting(0, UserRequested) && HasResources(tr.Last(), id)
    ensures forall now :: DueForReaping(tr.Last().rows[id].state, now, CFG.failedGrace).None?
    ensures OutcomeOf(tr.Last().rows[id].state).AlreadyDeleting?
  {
    id := ClusterId(1);
    tr := ReadThenServed();
    tr := Then(CFG, tr, TaskStep(0, Write(true)));
    assert tr.Last().rows == map[id := Doomed(1)];
    tr := Then(CFG, tr, TaskStep(0, Act));
    assert Mounted(1) in tr.Last().res;
  }

  const PENDING := DeleteWrite(Served(1), Deleting(0, UserRequested), StartTeardown, false)

  /** Two delete requests both read the Ready row before either writes. */
  lemma BothRead(tr: Trail) returns (longer: Trail)
    requires tr.Runs(CFG) && tr.Last().rows == map[ClusterId(1) := Served(1)]
    requires tr.Last().phase.Serving? && tr.Last().tasks == [] && tr.Last().clock == 0
    ensures longer.Runs(CFG) && longer.Last() == tr.Last().(tasks := [PENDING, PENDING])
  {
    var id := ClusterId(1);
    longer := Then(CFG, tr, DeleteArrives(id, OWNER));
    longer := Then(CFG, longer, DeleteArrives(id, OWNER));
    longer := Then(CFG, longer, TaskStep(0, Read(0, true)));
    longer := Then(CFG, longer, TaskStep(1, Read(0, true)));
  }

  lemma BothWrite(tr: Trail) returns (longer: Trail)
    requires tr.Runs(CFG) && tr.Last().rows == map[ClusterId(1) := Served(1)]
    requires tr.Last().tasks == [PENDING, PENDING]
    ensures longer.Runs(CFG)
    ensures longer.Last() == tr.Last().(rows := map[ClusterId(1) := Doomed(1)],
                                        tasks := [Teardown(Doomed(1), TearBackend), Teardown(Doomed(1), TearBackend)])
  {
    longer := Then(CFG, tr, TaskStep(0, Write(true)));
    longer := Then(CFG, longer, TaskStep(1, Write(true)));
    assert longer.Last().rows == map[ClusterId(1) := Doomed(1)];
    longer := Then(CFG, longer, TaskStep(0, Act));
    longer := Then(CFG, longer, TaskStep(1, Act));
  }

  /** The first teardown runs to its end and frees the slot. */
  lemma FirstTearsDown(tr: Trail) returns (longer: Trail)
    requires tr.Runs(CFG) && tr.Last().rows == map[ClusterId(1) := Doomed(1)]
    requires tr.Last().tasks == [Teardown(Doomed(1), TearBackend), Teardown(Doomed(1), TearBackend)]
    requires tr.Last().res == {Mounted(1)} && tr.Last().dirs == {Written(1)} && tr.Last().tearers == {}
    ensures longer.Runs(CFG)
    ensures longer.Last() == tr.Last().(rows := map[], res := {}, dirs := {}, tearers := {ByTask(ClusterId(1), 0)},
                                        tasks := [Done, Teardown(Doomed(1), TearBackend)])
  {
    longer := Then(CFG, tr, TaskStep(0, TaskTear(SUCCESS)));
    assert longer.Last().res == {};
    longer := Then(CFG, longer, TaskStep(0, TaskTear(SUCCESS)));
    assert longer.Last().dirs == {};
    longer := Then(CFG, longer, TaskStep(0, TaskTear(SUCCESS)));
    assert longer.Last().rows == map[];
  }

  /** Without atomic delete requests two tasks tear cluster 1 down, and the second wipes the
      directory that by then belongs to cluster 2, whose spawn is under way. */
  lemma TwoTearersWithoutAtomicity() returns (tr: Trail, k: nat)
    ensures tr.Runs(CFG) && k + 1 < |tr.ss|
    ensures ByTask(ClusterId(1), 0) in tr.ss[k].tearers && ByTask(ClusterId(1), 1) in tr.ss[k].tearers
    ensures Active(tr.ss[k], ClusterId(2)) && Written(2) in tr.ss[k].dirs && Written(2) !in tr.ss[k + 1].dirs
  {
    tr := ServedRun();
    tr := BothRead(tr);
    tr := BothWrite(tr);
    tr := FirstTearsDown(tr);
    tr := CreateFirst(tr, 2);
    tr := ProvisionAgain(tr);
    tr := Then(CFG, tr, TaskStep(1, TaskTear(SUCCESS)));
    assert ByTask(ClusterId(1), 1) in tr.Last().tearers;
    k := |tr.ss| - 1;
    tr := Then(CFG, tr, TaskStep(1, TaskTear(SUCCESS)));
  }

  lemma ProvisionAgain(tr: Trail) returns (longer: Trail)
    requires tr.Runs(CFG) && ClusterId(2) in tr.Last().spawns && tr.Last().spawns[ClusterId(2)] == Spawn(Fresh(2), Launching)
    requires tr.Last().rows == map[ClusterId(2) := Fresh(2)]
    ensures longer.Runs(CFG)
    ensures var s := tr.Last();
            && Written(2) in longer.Last().dirs && Active(longer.Last(), ClusterId(2))
            && longer.Last().tasks == s.tasks && longer.Last().tearers == s.tearers && longer.Last().res == s.res
  {
    var id := ClusterId(2);
    longer := Then(CFG, tr, SpawnStep(id, Launch));
    longer := Then(CFG, longer, SpawnStep(id, SetWorker(true)));
    longer := Then(CFG, longer, SpawnStep(id, Prepare(None, true)));
  }
}
