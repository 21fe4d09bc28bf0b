/** Tearing one cluster down: its backend, then its directory, then its row, whatever fails. */
module TeardownTask {
  import opened Domain
  import opened Repository
  import opened Lifecycle

  /** What the three calls of a teardown answer. */
  datatype TearReplies = TearReplies(backend: TearReply, wipe: TearReply, deleted: bool)

  /** The calls by which background tasks act on the outside and on rows, conclusions aside. */
  datatype Call =
    | StoreWorker(id: ClusterId)
    | PrepareWorkerDir(account: string, slot: nat, subdir: string)
    | AdoptStagedTree(account: string, slot: nat)
    | CreateResource(id: ClusterId, name: ResourceName)
    | TearDownBackend(id: ClusterId)
    | WipeDirectory(account: string, slot: nat)
    | DeleteRow(id: ClusterId)

  /** What the background tasks share: the repository and the world outside the process. */
  class TaskDeps {
    const repository: SqliteRepository
    const cfg: Settings
    var res: set<Resource>
    var dirs: set<Holding>
    ghost var calls: seq<Call>

    constructor (repository: SqliteRepository, cfg: Settings)
      ensures this.repository == repository && this.cfg == cfg && res == {} && dirs == {} && calls == []
    {
      this.repository := repository;
      this.cfg := cfg;
      res, dirs := {}, {};
      calls := [];
    }
  }

  predicate Removes(c: Cluster, reply: TearReply, r: Resource) {
    r.id == c.id && (reply.ok || r in reply.gone)
  }

  predicate Erases(c: Cluster, reply: TearReply, h: Holding) {
    c.worker.Some? && h.account == c.worker.value.name && h.slot == c.slot && (reply.ok || h in reply.erased)
  }

  function ResAfter(cfg: Settings, res: set<Resource>, c: Cluster, reply: TearReply): set<Resource> {
    if c.service.kind in cfg.backends then set r | r in res && !Removes(c, reply, r) else res
  }

  function DirsAfter(dirs: set<Holding>, c: Cluster, reply: TearReply): set<Holding> {
    set h | h in dirs && !Erases(c, reply, h)
  }

  function TableAfter(table: Table, c: Cluster, deleted: bool): Table {
    if deleted then table - {c.id} else table
  }

  function TeardownCalls(cfg: Settings, c: Cluster): seq<Call> {
    (if c.service.kind in cfg.backends then [TearDownBackend(c.id)] else [])
    + (if c.worker.Some? then [WipeDirectory(c.worker.value.name, c.slot)] else [])
    + [DeleteRow(c.id)]
  }

  /** What is left of resources and directories: a call that succeeds leaves nothing of the cluster or of its
      directory, one that fails leaves everything but the part it got to, and a kind without a backend or a
      cluster without an account loses nothing. */
  lemma LeftExactly(cfg: Settings, res: set<Resource>, dirs: set<Holding>, c: Cluster, reply: TearReply, r: Resource, h: Holding)
    ensures r in ResAfter(cfg, res, c, reply) <==>
              r in res && (c.service.kind in cfg.backends && r.id == c.id ==> !reply.ok && r !in reply.gone)
    ensures h in DirsAfter(dirs, c, reply) <==>
              h in dirs && (c.worker.Some? && h.account == c.worker.value.name && h.slot == c.slot ==>
                              !reply.ok && h !in reply.erased)
  {
  }

  /** Each call is made whatever became of the ones before it. */
  method TearDown(deps: TaskDeps, c: Cluster, replies: TearReplies)
    modifies deps, deps.repository
    ensures deps.res == ResAfter(deps.cfg, old(deps.res), c, replies.backend)
    ensures deps.dirs == DirsAfter(old(deps.dirs), c, replies.wipe)
    ensures deps.repository.table == TableAfter(old(deps.repository.table), c, replies.deleted)
    ensures deps.calls == old(deps.calls) + TeardownCalls(deps.cfg, c)
  {
    if c.service.kind in deps.cfg.backends {
      deps.calls := deps.calls + [TearDownBackend(c.id)];
      deps.res := ResAfter(deps.cfg, deps.res, c, replies.backend);
    }
    if c.worker.Some? {
      deps.calls := deps.calls + [WipeDirectory(c.worker.value.name, c.slot)];
      deps.dirs := DirsAfter(deps.dirs, c, replies.wipe);
    }
    deps.calls := deps.calls + [DeleteRow(c.id)];
    if replies.deleted {
      deps.repository.Delete(c.id);
    }
  }

  /** The backend of a registered kind is asked first, the directory of a cluster that has an account next,
      the row last and in any case; nothing else is asked. */
  lemma RowIsLast(cfg: Settings, c: Cluster)
    ensures var calls := TeardownCalls(cfg, c);
            match (c.service.kind in cfg.backends, c.worker)
            case (true, Some(worker)) => calls == [TearDownBackend(c.id), WipeDirectory(worker.name, c.slot), DeleteRow(c.id)]
            case (true, None) => calls == [TearDownBackend(c.id), DeleteRow(c.id)]
            case (false, Some(worker)) => calls == [WipeDirectory(worker.name, c.slot), DeleteRow(c.id)]
            case (false, None) => calls == [DeleteRow(c.id)]
  {
  }

  /** Undisturbed, the method takes the three protocol steps of a teardown task. */
  lemma TeardownIsThreeSteps(cfg: Settings, s: System, i: nat, replies: TearReplies, table: Table)
    requires i < |s.tasks| && s.tasks[i].Teardown? && s.tasks[i].at == TearBackend && s.rows == Decoded(table)
    ensures var c := s.tasks[i].cluster;
            var s1 := AfterTaskTear(cfg, s, i, replies.backend);
            var s2 := AfterTaskTear(cfg, s1, i, replies.wipe);
            var s3 := AfterTaskTear(cfg, s2, i, TearReply(replies.deleted, {}, {}));
            && s3.res == ResAfter(cfg, s.res, c, replies.backend)
            && s3.dirs == DirsAfter(s.dirs, c, replies.wipe)
            && s3.rows == Decoded(TableAfter(table, c, replies.deleted))
            && s3.tasks == s.tasks[i := Done]
  {
    var c := s.tasks[i].cluster;
    assert Decoded(table - {c.id}) == Decoded(table) - {c.id};
    BackendStep(cfg, s, i, replies.backend);
    var s1 := AfterTaskTear(cfg, s, i, replies.backend);
    WipeStep(cfg, s1, i, replies.wipe);
  }

  lemma BackendStep(cfg: Settings, s: System, i: nat, reply: TearReply)
    requires i < |s.tasks| && s.tasks[i].Teardown? && s.tasks[i].at == TearBackend
    ensures var c := s.tasks[i].cluster; var t := AfterTaskTear(cfg, s, i, reply);
            && t.res == ResAfter(cfg, s.res, c, reply) && t.dirs == s.dirs && t.rows == s.rows
            && t.tasks == s.tasks[i := Task.Teardown(c, TearWipe)]
  {
  }

  lemma WipeStep(cfg: Settings, s: System, i: nat, reply: TearReply)
    requires i < |s.tasks| && s.tasks[i].Teardown? && s.tasks[i].at == TearWipe
    ensures var c := s.tasks[i].cluster; var t := AfterTaskTear(cfg, s, i, reply);
            && t.res == s.res && t.dirs == DirsAfter(s.dirs, c, reply) && t.rows == s.rows
            && t.tasks == s.tasks[i := Task.Teardown(c, TearRow)]
  {
  }
}
