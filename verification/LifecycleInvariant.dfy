/** The inductive invariant of the lifecycle: it holds of every interleaving, every failed call
    and every crash point, with no assumption on scheduling. */
module LifecycleInvariant {
  import opened Domain
  import opened Allocator
  import opened Lifecycle

  // ----- per-element conditions -----

  ghost predicate SameCluster(c: Cluster, row: Cluster) {
    c.owner == row.owner && c.service == row.service && c.slot == row.slot && c.requestedTtl == row.requestedTtl
  }

  ghost predicate RowOk(cfg: Settings, s: System, id: ClusterId) {
    && id in s.rows
    && var row := s.rows[id];
    && row.id == id && id in s.issued
    && row.slot < cfg.maxClustersPerUser
    && cfg.minTtl <= row.requestedTtl <= cfg.maxTtl
    && (row.worker.Some? ==> row.owner in cfg.accounts && row.worker.value == cfg.accounts[row.owner])
    && (row.state.Ready? ==> row.state.decommissionAt == row.state.readyAt + row.requestedTtl)
    && (row.state.Deleting? && row.state.reason == TtlExpired ==> !Active(s, id))
  }

  /** What a teardown that has reached `at` has already cleared, unless a call failed. */
  ghost predicate Cleared(s: System, id: ClusterId, at: TearPc) {
    || id in s.leaked
    || ( && (at != TearBackend ==> !HasResources(s, id))
         && (at == TearRow ==> !HasHoldings(s, id)))
  }

  ghost predicate RowDeleting(s: System, id: ClusterId) {
    id in s.rows ==> s.rows[id].state.Deleting?
  }

  ghost predicate SpawnOk(cfg: Settings, s: System, id: ClusterId) {
    && id in s.spawns
    && var c := s.spawns[id].cluster;
    var pc := s.spawns[id].pc;
    && c.id == id && id in s.issued && s.phase.Serving?
    && (!pc.Launching? <==> id in s.tokens)
    && (!pc.Finishing? ==>
          && id in s.rows
          && var row := s.rows[id];
          && SameCluster(c, row) && c.state.Spawning?
          && (row.state.Spawning? || row.state.Deleting?)
          && (c.worker.Some? ==> c.owner in cfg.accounts && c.worker.value == cfg.accounts[c.owner])
          && (row.worker.Some? ==> row.worker == c.worker)
          && (pc.Launching? || pc.AtWorker? ==> c.worker.None?)
          && (pc.AtPrepare? || pc.AtBackend? ==>
                row.worker.Some? && c.service.kind in cfg.backends)
          && (InDoSpawn(pc) && id in s.tokens && s.tokens[id] ==> row.state.Deleting?)
          && (pc.AtPersist? ==> pc.seen.Spawning?)
          && (pc.Tearing? ==> row.state.Deleting? && Cleared(s, id, pc.at)))
  }

  /** A Ready row whose time is up, or a row that is not Ready. */
  ghost predicate Expired(s: System, id: ClusterId) {
    id in s.rows && s.rows[id].state.Ready? ==> s.rows[id].state.decommissionAt <= s.clock
  }

  ghost predicate Snapshot(s: System, c: Cluster) {
    c.id in s.issued && (c.id in s.rows ==> SameCluster(c, s.rows[c.id]))
  }

  /** A snapshot whose account is the persisted one, of a cluster no spawn task works on. */
  ghost predicate FinalSnapshot(s: System, c: Cluster) {
    Snapshot(s, c) && !Active(s, c.id) && (c.id in s.rows ==> c.worker == s.rows[c.id].worker)
  }

  ghost predicate TaskOk(cfg: Settings, s: System, t: Task) {
    match t
    case Done => true
    case DeleteCall(id, _, reason, byReaper) =>
      && s.phase.Serving?
      && (byReaper ==> id in s.issued && !Active(s, id) && (id in s.rows ==> !s.rows[id].state.Spawning?))
      && (reason == TtlExpired ==> byReaper && Expired(s, id))
    case DeleteWrite(c, next, outcome, byReaper) =>
      && s.phase.Serving? && Snapshot(s, c) && next.Deleting? && outcome == OutcomeOf(c.state)
      && (outcome.StartTeardown? ==> FinalSnapshot(s, c))
      && (outcome.AlreadyDeleting? ==> next == c.state)
      && (byReaper ==> !outcome.CancelSpawn?)
      && (next.reason == TtlExpired ==> !Active(s, c.id) && Expired(s, c.id))
    case Dispatch(c, outcome, byReaper) =>
      && s.phase.Serving? && Snapshot(s, c)
      && (outcome.StartTeardown? ==> FinalSnapshot(s, c) && RowDeleting(s, c.id))
      && (outcome.CancelSpawn? && Active(s, c.id) ==> RowDeleting(s, c.id))
      && (byReaper ==> !outcome.CancelSpawn?)
    case Teardown(c, at) =>
      !s.phase.Booting? && FinalSnapshot(s, c) && RowDeleting(s, c.id) && Cleared(s, c.id, at)
  }

  ghost predicate ResourceOk(cfg: Settings, s: System, r: Resource) {
    || r.id in s.leaked
    || ( && r.id in s.rows
         && var row := s.rows[r.id];
         && row.worker.Some? && row.worker.value.name == r.account && row.slot == r.slot
         && row.service.kind in cfg.backends)
  }

  ghost predicate HoldingOk(s: System, h: Holding) {
    || h.id in s.leaked
    || ( && h.id in s.rows
         && var row := s.rows[h.id];
         && row.worker.Some? && row.worker.value.name == h.account && row.slot == h.slot)
  }

  ghost predicate PhaseOk(s: System) {
    match s.phase
    case Booting => s.spawns == map[] && s.tokens == map[] && s.tasks == []
    case Reconciling(todo) =>
      && s.spawns == map[] && s.tokens == map[]
      && (forall i :: 0 <= i < |s.tasks| ==> s.tasks[i].Done? || (s.tasks[i].Teardown? && s.tasks[i].cluster.id !in todo))
      && (forall id :: id in todo ==> id in s.rows && todo[id] == s.rows[id])
    case Serving => true
  }

  // ----- the invariant -----

  ghost predicate RowsOk(cfg: Settings, s: System) {
    forall id :: id in s.rows ==> RowOk(cfg, s, id)
  }

  ghost predicate SpawnsOk(cfg: Settings, s: System) {
    && (forall id :: id in s.spawns ==> SpawnOk(cfg, s, id))
    && (forall id :: id in s.tokens ==> id in s.spawns)
  }

  ghost predicate TasksOk(cfg: Settings, s: System) {
    forall i :: 0 <= i < |s.tasks| ==> TaskOk(cfg, s, s.tasks[i])
  }

  ghost predicate WorldOk(cfg: Settings, s: System) {
    && (forall r :: r in s.res ==> ResourceOk(cfg, s, r))
    && (forall h :: h in s.dirs ==> HoldingOk(s, h))
    && s.leaked <= s.issued
  }

  ghost predicate Inv(cfg: Settings, s: System) {
    && RowsOk(cfg, s) && SlotsDistinct(s.rows)
    && SpawnsOk(cfg, s) && TasksOk(cfg, s) && WorldOk(cfg, s) && PhaseOk(s)
  }

  // ----- it holds at the start and every step keeps it -----

  lemma InitInv(cfg: Settings, s: System)
    requires Init(s)
    ensures Inv(cfg, s)
  {
  }

  // What the holder of a task or spawn on `id` may rely on across a step by somebody else.

  ghost predicate Forward(s: System, t: System) {
    && (s.phase.Serving? ==> t.phase.Serving?)
    && (!s.phase.Booting? ==> !t.phase.Booting?)
    && s.issued <= t.issued && s.leaked <= t.leaked && s.clock <= t.clock
  }

  /** Outside resources of `id` do not come back. */
  ghost predicate NothingNew(s: System, t: System, id: ClusterId) {
    || id in t.leaked
    || ( && (HasResources(t, id) ==> HasResources(s, id))
         && (HasHoldings(t, id) ==> HasHoldings(s, id) || HasResources(s, id)))
  }

  ghost predicate Rely(s: System, t: System, id: ClusterId) {
    && (Active(t, id) ==> Active(s, id))
    && (!Active(s, id) ==> NothingNew(s, t, id))
    && (id in t.rows ==>
          && id in s.rows
          && var before := s.rows[id]; var after := t.rows[id];
          && SameCluster(after, before)
          && (before.state.Deleting? && (Active(t, id) || !Active(s, id)) ==> after.state.Deleting?)
          && (!Active(s, id) ==>
                && after.worker == before.worker
                && (after.state.Spawning? ==> before.state.Spawning?)
                && (after.state.Ready? ==> after.state == before.state)))
  }

  ghost predicate RelySpawn(s: System, t: System, id: ClusterId) {
    && t.phase == s.phase
    && id in s.spawns && id in t.spawns && t.spawns[id] == s.spawns[id]
    && (id in t.tokens <==> id in s.tokens)
    && (Active(s, id) ==>
          && NothingNew(s, t, id)
          && id in s.rows && id in t.rows
          && var before := s.rows[id]; var after := t.rows[id];
          && SameCluster(before, after) && after.worker == before.worker
          && (after.state == before.state || after.state.Deleting?)
          && (id in t.tokens ==> t.tokens[id] == s.tokens[id] || after.state.Deleting?))
  }

  lemma TaskFrame(cfg: Settings, s: System, t: System, task: Task)
    requires TaskOk(cfg, s, task) && Forward(s, t)
    requires TaskId(task).Some? && TaskId(task).value in s.issued ==> Rely(s, t, TaskId(task).value)
    ensures TaskOk(cfg, t, task)
  {
  }

  lemma SpawnFrame(cfg: Settings, s: System, t: System, id: ClusterId)
    requires SpawnOk(cfg, s, id) && Forward(s, t) && RelySpawn(s, t, id)
    ensures SpawnOk(cfg, t, id)
  {
  }

  /** What the rest of the state keeps when the row of `id` is the only one rewritten, and when
      its account, once persisted, is not changed. */
  ghost predicate OnlyRow(s: System, t: System, id: ClusterId) {
    && (forall d :: d in t.rows ==> d in s.rows && (d != id ==> t.rows[d] == s.rows[d]))
    && (forall d :: d in s.rows && d != id ==> d in t.rows)
    && (id in t.rows ==>
          && SameCluster(t.rows[id], s.rows[id]) && t.rows[id].id == s.rows[id].id
          && (s.rows[id].worker.Some? ==> t.rows[id].worker == s.rows[id].worker))
  }

  lemma RowsFrame(cfg: Settings, s: System, t: System, id: ClusterId)
    requires RowsOk(cfg, s) && SlotsDistinct(s.rows) && OnlyRow(s, t, id) && Forward(s, t)
    requires forall d :: d in s.issued ==> (Active(t, d) ==> Active(s, d))
    requires id in t.rows ==> RowOk(cfg, t, id)
    ensures RowsOk(cfg, t) && SlotsDistinct(t.rows)
  {
    forall d | d in t.rows && d != id ensures RowOk(cfg, t, d) {
      assert RowOk(cfg, s, d);
    }
    forall c, d | c in t.rows && d in t.rows && c != d && t.rows[c].owner == t.rows[d].owner
      ensures t.rows[c].slot != t.rows[d].slot
    {
      assert s.rows[c].owner == s.rows[d].owner;
    }
  }

  lemma WorldFrame(cfg: Settings, s: System, t: System, id: ClusterId)
    requires RowsOk(cfg, s) && WorldOk(cfg, s) && OnlyRow(s, t, id) && Forward(s, t) && t.leaked <= t.issued
    requires forall r :: r in t.res ==> r in s.res || ResourceOk(cfg, t, r)
    requires forall h :: h in t.dirs ==> h in s.dirs || HoldingOk(t, h)
    requires id in s.rows && id !in t.rows ==> id in t.leaked || (!HasResources(t, id) && !HasHoldings(t, id))
    ensures WorldOk(cfg, t)
  {
  }

  lemma TasksFrame(cfg: Settings, s: System, t: System, k: nat)
    requires TasksOk(cfg, s) && Forward(s, t)
    requires |s.tasks| == |t.tasks|
    requires forall i :: 0 <= i < |s.tasks| && i != k ==> t.tasks[i] == s.tasks[i]
    requires k < |t.tasks| ==> TaskOk(cfg, t, t.tasks[k])
    requires forall id :: id in s.issued ==> Rely(s, t, id)
    ensures TasksOk(cfg, t)
  {
  }

  lemma SpawnsFrame(cfg: Settings, s: System, t: System, c: ClusterId)
    requires SpawnsOk(cfg, s) && Forward(s, t)
    requires forall id :: id in t.spawns && id != c ==> RelySpawn(s, t, id)
    requires forall id :: id in t.tokens ==> id in t.spawns
    requires c in t.spawns ==> SpawnOk(cfg, t, c)
    ensures SpawnsOk(cfg, t)
  {
    forall id | id in t.spawns ensures SpawnOk(cfg, t, id) {
      if id != c {
        assert SpawnOk(cfg, s, id);
        SpawnFrame(cfg, s, t, id);
      }
    }
  }

  /** A step on the row, spawn task and resources of `c`; tasks aside, nothing else grows or moves. */
  ghost predicate OnCluster(s: System, t: System, c: ClusterId) {
    && t.phase == s.phase && t.issued == s.issued && t.clock == s.clock
    && (t.leaked == s.leaked || t.leaked == s.leaked + {c})
    && OnlyRow(s, t, c)
    && (forall id :: id != c ==> (id in t.spawns <==> id in s.spawns))
    && (forall id :: id in t.spawns && id != c ==> t.spawns[id] == s.spawns[id])
    && (forall id :: id != c ==> (id in t.tokens <==> id in s.tokens))
    && (forall id :: id != c && id in s.tokens ==> t.tokens[id] == s.tokens[id])
    && (forall r :: r in t.res && r.id != c ==> r in s.res)
    && (forall h :: h in t.dirs && h.id != c ==> h in s.dirs)
  }

  lemma OthersRely(s: System, t: System, c: ClusterId, id: ClusterId)
    requires OnCluster(s, t, c) && id != c
    ensures Rely(s, t, id)
    ensures id in t.spawns && (Active(s, id) ==> id in s.rows) ==> RelySpawn(s, t, id)
  {
  }

  /** What a step of the spawn task of `c` establishes about `c` itself. */
  ghost predicate OwnSpawnPost(cfg: Settings, s: System, t: System, c: ClusterId) {
    && OnCluster(s, t, c) && t.tasks == s.tasks
    && (Active(s, c) || (t.rows == s.rows && !Active(t, c) && t.res == s.res && t.dirs == s.dirs))
    && (c in t.spawns ==> SpawnOk(cfg, t, c))
    && (c in t.rows ==> RowOk(cfg, t, c))
    && (c in t.tokens ==> c in t.spawns)
    && (c in s.rows && c in t.rows && s.rows[c].state.Deleting? && Active(t, c) ==> t.rows[c].state.Deleting?)
    && (forall r :: r in t.res && r.id == c ==> r in s.res || ResourceOk(cfg, t, r))
    && (forall h :: h in t.dirs && h.id == c ==> h in s.dirs || HoldingOk(t, h))
    && (c in s.rows && c !in t.rows ==> c in t.leaked || (!HasResources(t, c) && !HasHoldings(t, c)))
  }

  lemma OwnSpawnRely(cfg: Settings, s: System, t: System, c: ClusterId)
    requires SpawnsOk(cfg, s) && c in s.spawns && OwnSpawnPost(cfg, s, t, c)
    ensures forall id :: id in s.issued ==> Rely(s, t, id)
    ensures forall id :: id in t.spawns && id != c ==> RelySpawn(s, t, id)
  {
    assert SpawnOk(cfg, s, c);
    forall id | id in s.issued ensures Rely(s, t, id) {
      if id != c {
        OthersRely(s, t, c, id);
      }
    }
    forall id | id in t.spawns && id != c ensures RelySpawn(s, t, id) {
      assert SpawnOk(cfg, s, id);
      OthersRely(s, t, c, id);
    }
  }

  lemma OwnSpawnKeeps(cfg: Settings, s: System, t: System, c: ClusterId)
    requires Inv(cfg, s) && c in s.spawns && OwnSpawnPost(cfg, s, t, c)
    ensures Inv(cfg, t)
  {
    assert SpawnOk(cfg, s, c);
    OwnSpawnRely(cfg, s, t, c);
    TasksFrame(cfg, s, t, |s.tasks|);
    SpawnsFrame(cfg, s, t, c);
    RowsFrame(cfg, s, t, c);
    WorldFrame(cfg, s, t, c);
  }

  // One lemma per kind of call a spawn task makes.

  ghost predicate SpawnLocal(cfg: Settings, s: System, c: ClusterId) {
    SpawnOk(cfg, s, c) && (c in s.rows ==> RowOk(cfg, s, c)) && c in s.issued
  }

  lemma PcMoves(cfg: Settings, s: System, c: ClusterId, result: SpawnResult)
    requires SpawnLocal(cfg, s, c)
    ensures s.spawns[c].pc.Launching? ==> OwnSpawnPost(cfg, s, Goto(s, c, AtWorker).(tokens := s.tokens[c := false]), c)
    ensures InDoSpawn(s.spawns[c].pc) ==> OwnSpawnPost(cfg, s, Goto(s, c, AtRecheck(result)), c)
  {
  }

  lemma UnregisterMoves(cfg: Settings, s: System, c: ClusterId)
    requires SpawnLocal(cfg, s, c) && s.spawns[c].pc.Finishing?
    ensures OwnSpawnPost(cfg, s, s.(spawns := s.spawns - {c}, tokens := s.tokens - {c}), c)
  {
  }

  lemma CancelledMoves(cfg: Settings, s: System, c: ClusterId)
    requires SpawnLocal(cfg, s, c) && (s.spawns[c].pc.AtRecheck? || InDoSpawn(s.spawns[c].pc))
    requires s.rows[c].state.Deleting?
    ensures OwnSpawnPost(cfg, s, Goto(s, c, Tearing(TearBackend)), c)
  {
  }

  lemma RecheckMoves(cfg: Settings, s: System, c: ClusterId, ok: bool)
    requires SpawnLocal(cfg, s, c) && s.spawns[c].pc.AtRecheck?
    ensures OwnSpawnPost(cfg, s, AfterRecheck(s, c, ok), c)
  {
    if ok && s.rows[c].state.Deleting? {
      CancelledMoves(cfg, s, c);
    }
  }

  lemma SetWorkerFails(cfg: Settings, s: System, c: ClusterId, worker: Option<WorkerUser>, result: SpawnResult)
    requires SpawnLocal(cfg, s, c) && s.spawns[c].pc.AtWorker?
    requires worker.Some? ==> s.rows[c].owner in cfg.accounts && worker.value == cfg.accounts[s.rows[c].owner]
    ensures var s1 := s.(spawns := s.spawns[c := s.spawns[c].(cluster := s.spawns[c].cluster.(worker := worker))]);
            OwnSpawnPost(cfg, s, Goto(s1, c, AtRecheck(result)), c)
  {
  }

  lemma SetWorkerSucceeds(cfg: Settings, s: System, c: ClusterId, left: nat)
    requires SpawnLocal(cfg, s, c) && s.spawns[c].pc.AtWorker?
    requires s.rows[c].owner in cfg.accounts && s.rows[c].service.kind in cfg.backends
    ensures var worker := Some(cfg.accounts[s.rows[c].owner]);
            var s1 := s.(spawns := s.spawns[c := s.spawns[c].(cluster := s.spawns[c].cluster.(worker := worker))]);
            OwnSpawnPost(cfg, s, Goto(s1.(rows := s.rows[c := s.rows[c].(worker := worker)]), c, AtPrepare(left)), c)
  {
  }

  lemma SetWorkerMoves(cfg: Settings, s: System, c: ClusterId, ok: bool)
    requires SpawnLocal(cfg, s, c) && s.spawns[c].pc.AtWorker?
    ensures OwnSpawnPost(cfg, s, AfterSetWorker(cfg, s, c, ok), c)
  {
    var own := s.spawns[c].cluster;
    if own.service.kind !in cfg.backends {
      PcMoves(cfg, s, c, SpawnError("no backend registered for this service kind"));
    } else if own.owner !in cfg.accounts {
      PcMoves(cfg, s, c, SpawnError("worker preparation failed"));
    } else if ok {
      SetWorkerSucceeds(cfg, s, c, PrepareCalls(own.service.kind));
    } else {
      SetWorkerFails(cfg, s, c, Some(cfg.accounts[own.owner]), SpawnError("internal storage error"));
    }
  }

  lemma PrepareMoves(cfg: Settings, s: System, c: ClusterId, failure: Option<string>, wrote: bool)
    requires SpawnLocal(cfg, s, c) && s.spawns[c].pc.AtPrepare?
    ensures OwnSpawnPost(cfg, s, AfterPrepare(s, c, failure, wrote), c)
  {
  }

  lemma CreateMoves(cfg: Settings, s: System, c: ClusterId, failure: Option<string>, made: bool)
    requires SpawnLocal(cfg, s, c) && s.spawns[c].pc.AtBackend? && s.spawns[c].pc.plan != []
    ensures OwnSpawnPost(cfg, s, AfterCreate(s, c, failure, made), c)
  {
  }

  lemma PersistMoves(cfg: Settings, s: System, c: ClusterId, at: Instant, ok: bool)
    requires SpawnLocal(cfg, s, c) && s.spawns[c].pc.AtPersist?
    ensures OwnSpawnPost(cfg, s, AfterPersist(s, c, at, ok), c)
  {
  }

  lemma TearFrame(s: System, torn: System, t: System, c: ClusterId)
    requires torn == s.(rows := torn.rows, res := torn.res, dirs := torn.dirs, leaked := torn.leaked)
    requires torn.res <= s.res && torn.dirs <= s.dirs && (torn.rows == s.rows || torn.rows == s.rows - {c})
    requires torn.leaked == s.leaked || torn.leaked == s.leaked + {c}
    requires t == torn.(spawns := t.spawns, tasks := t.tasks, tearers := t.tearers)
    requires t.spawns == s.spawns || (c in s.spawns && c in t.spawns && t.spawns == s.spawns[c := t.spawns[c]])
    ensures OnCluster(s, t, c)
    ensures t.spawns == s.spawns ==> Rely(s, t, c)
    ensures t.spawns == s.spawns && c in s.spawns && !Active(s, c) ==> RelySpawn(s, t, c)
  {
  }

  /** What one teardown call on `c` does to the state, whoever makes it. */
  lemma TearMoves(cfg: Settings, s: System, c: Cluster, at: TearPc, reply: TearReply)
    requires Cleared(s, c.id, at)
    requires forall r :: r in s.res && r.id == c.id ==> ResourceOk(cfg, s, r)
    requires forall h :: h in s.dirs && h.id == c.id ==> HoldingOk(s, h)
    requires c.id in s.rows ==> c.slot == s.rows[c.id].slot && c.service == s.rows[c.id].service
    requires c.id in s.rows && s.rows[c.id].worker.Some? ==> c.worker == s.rows[c.id].worker
    ensures var t := AfterTear(cfg, s, c, at, reply);
            && t == s.(rows := t.rows, res := t.res, dirs := t.dirs, leaked := t.leaked)
            && (t.leaked == s.leaked || t.leaked == s.leaked + {c.id})
            && t.res <= s.res && t.dirs <= s.dirs
            && (t.rows == s.rows || (at == TearRow && t.rows == s.rows - {c.id}))
            && (at == TearBackend ==> Cleared(t, c.id, TearWipe))
            && (at == TearWipe ==> Cleared(t, c.id, TearRow))
            && (at == TearRow ==> Cleared(t, c.id, TearRow))
  {
  }

  ghost predicate ResourcesLocal(cfg: Settings, s: System, c: ClusterId) {
    && (forall r :: r in s.res && r.id == c ==> ResourceOk(cfg, s, r))
    && (forall h :: h in s.dirs && h.id == c ==> HoldingOk(s, h))
  }

  lemma SpawnTearMoves(cfg: Settings, s: System, c: ClusterId, reply: TearReply)
    requires SpawnLocal(cfg, s, c) && s.spawns[c].pc.Tearing? && ResourcesLocal(cfg, s, c)
    ensures OwnSpawnPost(cfg, s, AfterSpawnTear(cfg, s, c, reply), c)
  {
    var t := AfterSpawnTear(cfg, s, c, reply);
    TearMoves(cfg, s, s.spawns[c].cluster, s.spawns[c].pc.at, reply);
    TearFrame(s, AfterTear(cfg, s, s.spawns[c].cluster, s.spawns[c].pc.at, reply), t, c);
    assert SpawnOk(cfg, t, c);
  }

  lemma SpawnStepKeeps(cfg: Settings, s: System, c: ClusterId, m: SpawnMove)
    requires Inv(cfg, s) && SpawnEnabled(s, c, m)
    ensures Inv(cfg, ApplySpawn(cfg, s, c, m))
  {
    assert SpawnLocal(cfg, s, c) by {
      assert SpawnOk(cfg, s, c);
    }
    match m {
      case Launch => PcMoves(cfg, s, c, SpawnError(""));
      case SetWorker(ok) => SetWorkerMoves(cfg, s, c, ok);
      case Prepare(failure, wrote) => PrepareMoves(cfg, s, c, failure, wrote);
      case Create(failure, made) => CreateMoves(cfg, s, c, failure, made);
      case BackendReturns(result) => PcMoves(cfg, s, c, result);
      case Cancelled => CancelledMoves(cfg, s, c);
      case Recheck(ok) => RecheckMoves(cfg, s, c, ok);
      case Persist(at, ok) => PersistMoves(cfg, s, c, at, ok);
      case SpawnTear(reply) => SpawnTearMoves(cfg, s, c, reply);
      case Unregister => UnregisterMoves(cfg, s, c);
    }
    OwnSpawnKeeps(cfg, s, ApplySpawn(cfg, s, c, m), c);
  }

  /** What a step of task `k` establishes, where `c` is the cluster it is about. */
  ghost predicate OwnTaskPost(cfg: Settings, s: System, t: System, k: nat, c: ClusterId) {
    && OnCluster(s, t, c) && t.spawns == s.spawns
    && k < |s.tasks| && |t.tasks| == |s.tasks| && t.tasks == s.tasks[k := t.tasks[k]] && TaskOk(cfg, t, t.tasks[k])
    && t.res <= s.res && t.dirs <= s.dirs
    && (c in s.issued ==> Rely(s, t, c))
    && (c in s.spawns ==> RelySpawn(s, t, c))
    && (c in t.tokens ==> c in s.tokens)
    && (c in t.rows ==> RowOk(cfg, t, c))
    && (c in s.rows && c !in t.rows ==> c in t.leaked || (!HasResources(t, c) && !HasHoldings(t, c)))
  }

  lemma OwnTaskRely(cfg: Settings, s: System, t: System, k: nat, c: ClusterId)
    requires SpawnsOk(cfg, s) && |t.tasks| == |s.tasks| && OwnTaskPost(cfg, s, t, k, c)
    ensures forall id :: id in s.issued ==> Rely(s, t, id)
    ensures forall id :: id in t.spawns ==> RelySpawn(s, t, id)
  {
    forall id | id in s.issued ensures Rely(s, t, id) {
      if id != c {
        OthersRely(s, t, c, id);
      }
    }
    forall id | id in t.spawns ensures RelySpawn(s, t, id) {
      assert SpawnOk(cfg, s, id);
      if id != c {
        OthersRely(s, t, c, id);
      }
    }
  }

  lemma OwnTaskPhase(cfg: Settings, s: System, t: System, k: nat, c: ClusterId)
    requires PhaseOk(s) && |t.tasks| == |s.tasks| && OwnTaskPost(cfg, s, t, k, c)
    requires TaskId(s.tasks[k]) == Some(c) && SameShape(s, t, k, c)
    ensures PhaseOk(t)
  {
  }

  lemma OwnTaskKeeps(cfg: Settings, s: System, t: System, k: nat, c: ClusterId)
    requires Inv(cfg, s) && |t.tasks| == |s.tasks| && OwnTaskPost(cfg, s, t, k, c)
    requires t.leaked <= t.issued && PhaseOk(t)
    ensures Inv(cfg, t)
  {
    OwnTaskRely(cfg, s, t, k, c);
    TasksFrame(cfg, s, t, k);
    if c in t.spawns {
      assert SpawnOk(cfg, s, c);
      SpawnFrame(cfg, s, t, c);
    }
    SpawnsFrame(cfg, s, t, c);
    RowsFrame(cfg, s, t, c);
    WorldFrame(cfg, s, t, c);
  }

  /** A teardown call leaves everything but rows, resources and directories alone. */
  lemma TearScope(cfg: Settings, s: System, c: Cluster, at: TearPc, reply: TearReply)
    ensures var t := AfterTear(cfg, s, c, at, reply);
            && t == s.(rows := t.rows, res := t.res, dirs := t.dirs, leaked := t.leaked)
            && (t.leaked == s.leaked || t.leaked == s.leaked + {c.id})
  {
  }

  /** A task keeps to its cluster, and a teardown stays one until it is done. */
  ghost predicate SameShape(s: System, t: System, k: nat, c: ClusterId) {
    && k < |s.tasks| && |t.tasks| == |s.tasks|
    && (t.tasks[k].Done? || TaskId(t.tasks[k]) == Some(c))
    && (s.tasks[k].Teardown? ==> t.tasks[k].Done? || t.tasks[k].Teardown?)
    && (t.leaked == s.leaked || t.leaked == s.leaked + {c})
  }

  lemma TearShape(cfg: Settings, s: System, k: nat, reply: TearReply)
    requires k < |s.tasks| && s.tasks[k].Teardown?
    ensures SameShape(s, AfterTaskTear(cfg, s, k, reply), k, s.tasks[k].cluster.id)
  {
  }

  lemma DeleteShape(s: System, k: nat, at: Instant, ok: bool)
    requires k < |s.tasks|
    ensures s.tasks[k].DeleteCall? && (s.tasks[k].id in s.rows ==> s.rows[s.tasks[k].id].id == s.tasks[k].id) ==>
              SameShape(s, AfterRead(s, k, at, ok), k, s.tasks[k].id)
    ensures s.tasks[k].DeleteWrite? ==> SameShape(s, AfterWrite(s, k, ok), k, s.tasks[k].cluster.id)
    ensures s.tasks[k].Dispatch? ==> SameShape(s, AfterAct(s, k), k, s.tasks[k].cluster.id)
  {
  }

  lemma TaskMoves(cfg: Settings, s: System, k: nat, c: ClusterId, m: TaskMove)
    requires TaskLocal(cfg, s, k, c) && ResourcesLocal(cfg, s, c) && TaskEnabled(s, k, m)
    ensures OwnTaskPost(cfg, s, ApplyTask(cfg, s, k, m), k, c)
    ensures SameShape(s, ApplyTask(cfg, s, k, m), k, c)
  {
    match m {
      case Read(at, ok) => ReadMoves(cfg, s, k, c, at, ok); DeleteShape(s, k, at, ok);
      case Write(ok) => WriteMoves(cfg, s, k, c, ok); DeleteShape(s, k, 0, ok);
      case Act => ActMoves(cfg, s, k, c); DeleteShape(s, k, 0, true);
      case TaskTear(reply) => TaskTearMoves(cfg, s, k, c, reply); TearShape(cfg, s, k, reply);
    }
  }

  lemma TaskStepKeeps(cfg: Settings, s: System, k: nat, m: TaskMove)
    requires Inv(cfg, s) && TaskEnabled(s, k, m)
    ensures Inv(cfg, ApplyTask(cfg, s, k, m))
  {
    assert TaskOk(cfg, s, s.tasks[k]);
    var c := TaskId(s.tasks[k]).value;
    var t := ApplyTask(cfg, s, k, m);
    assert c in s.rows ==> RowOk(cfg, s, c);
    assert TaskLocal(cfg, s, k, c) && ResourcesLocal(cfg, s, c);
    TaskMoves(cfg, s, k, c, m);
    OwnTaskPhase(cfg, s, t, k, c);
    OwnTaskKeeps(cfg, s, t, k, c);
  }

  ghost predicate TaskLocal(cfg: Settings, s: System, k: nat, c: ClusterId) {
    && k < |s.tasks| && TaskOk(cfg, s, s.tasks[k]) && TaskId(s.tasks[k]) == Some(c)
    && (c in s.rows ==> RowOk(cfg, s, c))
    && (c in s.spawns ==> SpawnOk(cfg, s, c))
  }

  lemma TasksOnly(s: System, t: System, c: ClusterId)
    requires t == s.(tasks := t.tasks, tokens := t.tokens)
    requires t.tokens == s.tokens || (c in s.tokens && t.tokens == s.tokens[c := true])
    requires t.tokens == s.tokens || (Active(s, c) && c in s.rows ==> s.rows[c].state.Deleting?)
    ensures OnCluster(s, t, c) && Rely(s, t, c)
    ensures c in s.spawns && (Active(s, c) ==> c in s.rows) ==> RelySpawn(s, t, c)
  {
  }

  lemma ReadMoves(cfg: Settings, s: System, k: nat, c: ClusterId, at: Instant, ok: bool)
    requires TaskLocal(cfg, s, k, c) && s.tasks[k].DeleteCall?
    ensures OwnTaskPost(cfg, s, AfterRead(s, k, at, ok), k, c)
  {
    var t := AfterRead(s, k, at, ok);
    TasksOnly(s, t, c);
    assert TaskOk(cfg, t, t.tasks[k]);
  }

  /** A write-back to the row of `c` is seen by its spawn task and by the other tasks on `c` as a row
      that may have become Deleting. */
  lemma RowWrittenOnly(s: System, t: System, c: ClusterId, next: ClusterState)
    requires t == s.(tasks := t.tasks, rows := SetState(s.rows, c, next)) && next.Deleting?
    ensures OnCluster(s, t, c) && Rely(s, t, c)
    ensures c in s.spawns && (Active(s, c) ==> c in s.rows) ==> RelySpawn(s, t, c)
  {
  }

  lemma WriteMoves(cfg: Settings, s: System, k: nat, c: ClusterId, ok: bool)
    requires TaskLocal(cfg, s, k, c) && s.tasks[k].DeleteWrite?
    ensures OwnTaskPost(cfg, s, AfterWrite(s, k, ok), k, c)
  {
    var t := AfterWrite(s, k, ok);
    if ok && c in s.rows {
      RowWrittenOnly(s, t, c, s.tasks[k].next);
    } else {
      TasksOnly(s, t, c);
    }
    WriteTask(cfg, s, k, c, ok);
  }

  lemma WriteTask(cfg: Settings, s: System, k: nat, c: ClusterId, ok: bool)
    requires TaskLocal(cfg, s, k, c) && s.tasks[k].DeleteWrite?
    ensures TaskOk(cfg, AfterWrite(s, k, ok), AfterWrite(s, k, ok).tasks[k])
  {
  }

  lemma ActTask(cfg: Settings, s: System, k: nat, c: ClusterId)
    requires TaskLocal(cfg, s, k, c) && s.tasks[k].Dispatch?
    ensures TaskOk(cfg, AfterAct(s, k), AfterAct(s, k).tasks[k])
  {
  }

  lemma ActMoves(cfg: Settings, s: System, k: nat, c: ClusterId)
    requires TaskLocal(cfg, s, k, c) && s.tasks[k].Dispatch?
    ensures OwnTaskPost(cfg, s, AfterAct(s, k), k, c)
  {
    var t := AfterAct(s, k);
    TasksOnly(s, t, c);
    ActTask(cfg, s, k, c);
  }

  lemma TaskTearMoves(cfg: Settings, s: System, k: nat, c: ClusterId, reply: TearReply)
    requires TaskLocal(cfg, s, k, c) && s.tasks[k].Teardown? && ResourcesLocal(cfg, s, c)
    ensures OwnTaskPost(cfg, s, AfterTaskTear(cfg, s, k, reply), k, c)
  {
    var t := AfterTaskTear(cfg, s, k, reply);
    TearMoves(cfg, s, s.tasks[k].cluster, s.tasks[k].at, reply);
    TearFrame(s, AfterTear(cfg, s, s.tasks[k].cluster, s.tasks[k].at, reply), t, c);
    assert TaskOk(cfg, t, t.tasks[k]);
  }

  // Steps that are not a task's own call.

  lemma InsertKeeps(cfg: Settings, s: System, c: Cluster)
    requires Inv(cfg, s) && s.phase.Serving? && c.id !in s.issued
    requires FirstFree(UsedSlots(s.rows, c.owner), 0, cfg.maxClustersPerUser).Some?
    requires cfg.minTtl <= c.requestedTtl <= cfg.maxTtl && c.state.Spawning? && c.worker.None?
    ensures Inv(cfg, AfterInsert(cfg, s, c))
  {
    var t := AfterInsert(cfg, s, c);
    assert c.id !in s.spawns by {
      assert c.id in s.spawns ==> SpawnOk(cfg, s, c.id);
    }
    forall id | id in s.issued ensures Rely(s, t, id) {
      assert HasResources(t, id) ==> HasResources(s, id);
      assert HasHoldings(t, id) ==> HasHoldings(s, id);
    }
    TasksFrame(cfg, s, t, |s.tasks|);
    forall id | id in t.spawns && id != c.id ensures RelySpawn(s, t, id) {
      assert SpawnOk(cfg, s, id);
      assert HasResources(t, id) ==> HasResources(s, id);
      assert HasHoldings(t, id) ==> HasHoldings(s, id);
    }
    SpawnsFrame(cfg, s, t, c.id);
    forall id | id in t.rows ensures RowOk(cfg, t, id) {
      assert id != c.id ==> RowOk(cfg, s, id);
    }
    InsertWorld(cfg, s, c);
  }

  lemma InsertWorld(cfg: Settings, s: System, c: Cluster)
    requires RowsOk(cfg, s) && WorldOk(cfg, s) && c.id !in s.issued && SlotsDistinct(s.rows)
    requires FirstFree(UsedSlots(s.rows, c.owner), 0, cfg.maxClustersPerUser).Some?
    ensures WorldOk(cfg, AfterInsert(cfg, s, c)) && SlotsDistinct(AfterInsert(cfg, s, c).rows)
  {
  }

  lemma StillFrame(cfg: Settings, s: System, t: System)
    requires Inv(cfg, s) && t == s.(clock := t.clock, tasks := t.tasks, phase := t.phase, dirs := t.dirs) && Forward(s, t)
    requires t.phase == s.phase || s.spawns == map[]
    requires |s.tasks| <= |t.tasks| && t.tasks[..|s.tasks|] == s.tasks
    requires forall i :: |s.tasks| <= i < |t.tasks| ==> TaskOk(cfg, t, t.tasks[i])
    requires forall h :: h in t.dirs ==> h in s.dirs || (HasResources(s, h.id) && HoldingOk(t, h))
    requires PhaseOk(t)
    ensures Inv(cfg, t)
  {
    assert forall id :: HasResources(t, id) ==> HasResources(s, id);
    assert forall id :: HasHoldings(t, id) ==> HasHoldings(s, id) || HasResources(s, id);
    forall i | 0 <= i < |t.tasks| ensures TaskOk(cfg, t, t.tasks[i]) {
      if i < |s.tasks| {
        assert t.tasks[i] == t.tasks[..|s.tasks|][i] == s.tasks[i];
        assert TaskOk(cfg, s, s.tasks[i]);
        TaskFrame(cfg, s, t, s.tasks[i]);
      }
    }
    forall id | id in t.spawns ensures SpawnOk(cfg, t, id) {
      assert SpawnOk(cfg, s, id);
      SpawnFrame(cfg, s, t, id);
    }
    forall id | id in t.rows ensures RowOk(cfg, t, id) {
      assert RowOk(cfg, s, id);
    }
    forall r | r in t.res ensures ResourceOk(cfg, t, r) {
      assert ResourceOk(cfg, s, r);
    }
    forall h | h in t.dirs ensures HoldingOk(t, h) {
      assert h in s.dirs ==> HoldingOk(s, h);
    }
  }

  lemma ArrivalKeeps(cfg: Settings, s: System, step: Step)
    requires Inv(cfg, s) && Enabled(cfg, s, step)
    requires step.Tick? || step.DeleteArrives? || step.ReaperSees? || step.MountWrites? || step.ReconDone?
    ensures Inv(cfg, Apply(cfg, s, step))
  {
    var t := Apply(cfg, s, step);
    if step.ReaperSees? {
      assert RowOk(cfg, s, step.id);
      assert step.id in s.spawns ==> SpawnOk(cfg, s, step.id);
      assert TaskOk(cfg, t, t.tasks[|s.tasks|]);
    }
    if step.MountWrites? {
      assert ResourceOk(cfg, s, step.resource) && HasResources(s, step.resource.id);
    }
    StillFrame(cfg, s, t);
  }

  lemma CrashKeeps(cfg: Settings, s: System)
    requires Inv(cfg, s)
    ensures Inv(cfg, s.(phase := Booting, tokens := map[], spawns := map[], tasks := [], tearers := {}))
  {
  }

  lemma ReconListKeeps(cfg: Settings, s: System, ok: bool)
    requires Inv(cfg, s) && s.phase.Booting?
    ensures Inv(cfg, s.(phase := if ok then Reconciling(s.rows) else Serving))
  {
  }

  lemma ReconTasks(cfg: Settings, s: System, id: ClusterId, at: Instant, liveness: Liveness, ok: bool)
    requires RowOk(cfg, s, id) && PhaseOk(s) && s.phase.Reconciling? && id in s.phase.todo && AllDone(s)
    ensures var t := AfterReconTake(cfg, s, id, at, liveness, ok);
            && TasksOk(cfg, t) && PhaseOk(t) && (id in t.rows ==> RowOk(cfg, t, id)) && OnlyRow(s, t, id)
  {
    var t := AfterReconTake(cfg, s, id, at, liveness, ok);
    forall i | 0 <= i < |t.tasks| ensures TaskOk(cfg, t, t.tasks[i]) {
      if i < |s.tasks| {
        assert t.tasks[i] == s.tasks[i] && s.tasks[i].Done?;
      }
    }
  }

  lemma ReconTakeKeeps(cfg: Settings, s: System, id: ClusterId, at: Instant, liveness: Liveness, ok: bool)
    requires Inv(cfg, s) && s.phase.Reconciling? && id in s.phase.todo && AllDone(s)
    ensures Inv(cfg, AfterReconTake(cfg, s, id, at, liveness, ok))
  {
    var t := AfterReconTake(cfg, s, id, at, liveness, ok);
    assert RowOk(cfg, s, id);
    ReconTasks(cfg, s, id, at, liveness, ok);
    assert t == s.(rows := t.rows, tasks := t.tasks, phase := t.phase);
    RowsFrame(cfg, s, t, id);
    WorldFrame(cfg, s, t, id);
  }

  /** Every step keeps the invariant. */
  lemma StepKeeps(cfg: Settings, s: System, step: Step)
    requires Inv(cfg, s) && Enabled(cfg, s, step)
    ensures Inv(cfg, Apply(cfg, s, step))
  {
    match step {
      case Insert(id, owner, service, ttl, at) =>
        InsertKeeps(cfg, s, Cluster(id, owner, service, ttl, at, Spawning(at), None, 0));
      case Crash => CrashKeeps(cfg, s);
      case ReconList(ok) => ReconListKeeps(cfg, s, ok);
      case ReconTake(id, at, liveness, ok) => ReconTakeKeeps(cfg, s, id, at, liveness, ok);
      case SpawnStep(id, m) => SpawnStepKeeps(cfg, s, id, m);
      case TaskStep(i, m) => TaskStepKeeps(cfg, s, i, m);
      case _ => ArrivalKeeps(cfg, s, step);
    }
  }

  /** The invariant holds throughout every run. */
  lemma {:induction false} RunInv(cfg: Settings, ss: seq<System>, steps: seq<Step>, k: nat)
    requires Run(cfg, ss, steps) && k < |ss|
    ensures Inv(cfg, ss[k])
  {
    if k == 0 {
      InitInv(cfg, ss[0]);
    } else {
      RunInv(cfg, ss, steps, k - 1);
      StepKeeps(cfg, ss[k - 1], steps[k - 1]);
      assert ss[k - 1 + 1] == Apply(cfg, ss[k - 1], steps[k - 1]);
    }
  }
}
