/** The cluster lifecycle as a transition system.

    Request handlers, spawn tasks, teardown tasks, the TTL reaper and startup reconciliation share
    one durable table of rows and act on containers, networks and worker directories outside the
    process. One step is one repository, executor or container-runtime call, so any two tasks may
    interleave between calls and a crash may fall between any two calls. */
module Lifecycle {
  import opened Domain
  import opened Allocator

  datatype Settings = Settings(
    maxClustersPerUser: nat,
    minTtl: Duration,
    maxTtl: Duration,
    failedGrace: Duration,
    accounts: map<ClientId, WorkerUser>,
    backends: set<ServiceKind>)

  /** No two clients run as the same account (what configuration validation guarantees). */
  ghost predicate DistinctAccounts(cfg: Settings) {
    forall a, b :: a in cfg.accounts && b in cfg.accounts && cfg.accounts[a].name == cfg.accounts[b].name ==> a == b
  }

  // ----- the world outside the process -----

  datatype ResourceName = Network | Container(suffix: string)

  /** A container or network made for cluster `id`; a container is mounted on a directory. */
  datatype Resource = Resource(id: ClusterId, name: ResourceName, account: string, slot: nat)

  /** The directory of (`account`, `slot`) holds data of cluster `id`. */
  datatype Holding = Holding(account: string, slot: nat, id: ClusterId)

  // ----- tasks and their program counters -----

  datatype SpawnResult = Connected(connection: ConnectionInfo) | SpawnError(summary: string)

  /** The three calls of a teardown, in order. */
  datatype TearPc = TearBackend | TearWipe | TearRow

  datatype SpawnPc =
    | Launching                                   // row inserted, task not started
    | AtWorker                                    // about to resolve and persist the account
    | AtPrepare(left: nat)                        // executor calls left
    | AtBackend(plan: seq<ResourceName>)          // resources still to create
    | AtRecheck(result: SpawnResult)              // about to read the row again
    | AtPersist(result: SpawnResult, seen: ClusterState)
    | Tearing(at: TearPc)
    | Finishing                                   // about to leave the token registry

  datatype Spawn = Spawn(cluster: Cluster, pc: SpawnPc)

  datatype Task =
    | Done
    | DeleteCall(id: ClusterId, owner: ClientId, reason: DeleteReason, byReaper: bool)
    | DeleteWrite(cluster: Cluster, next: ClusterState, outcome: DeleteOutcome, byReaper: bool)
    | Dispatch(cluster: Cluster, outcome: DeleteOutcome, byReaper: bool)
    | Teardown(cluster: Cluster, at: TearPc)

  /** The cluster a task is about. */
  function TaskId(t: Task): Option<ClusterId> {
    match t
    case Done => None
    case DeleteCall(id, _, _, _) => Some(id)
    case DeleteWrite(c, _, _, _) => Some(c.id)
    case Dispatch(c, _, _) => Some(c.id)
    case Teardown(c, _) => Some(c.id)
  }

  datatype Phase =
    | Booting
    | Reconciling(todo: map<ClusterId, Cluster>)
    | Serving

  /** Who ran a teardown: the cluster's own spawn task, or an entry of the task list. */
  datatype Tearer = BySpawn(id: ClusterId) | ByTask(id: ClusterId, index: nat)

  datatype System = System(
    rows: map<ClusterId, Cluster>,        // durable
    res: set<Resource>,                   // external
    dirs: set<Holding>,                   // external
    issued: set<ClusterId>,               // every id ever generated
    leaked: set<ClusterId>,               // clusters a failed teardown call left something of
    clock: Instant,
    phase: Phase,
    tokens: map<ClusterId, bool>,         // cancellation registry: id to "cancelled"
    spawns: map<ClusterId, Spawn>,        // spawn tasks in flight
    tasks: seq<Task>,
    tearers: set<Tearer>)                 // history: who began a teardown since the last start

  ghost predicate Init(s: System) {
    && s.rows == map[] && s.res == {} && s.dirs == {} && s.issued == {} && s.leaked == {}
    && s.phase == Booting && s.tokens == map[] && s.spawns == map[] && s.tasks == [] && s.tearers == {}
  }

  // ----- steps -----

  /** `gone` and `erased` are what a failing call removed before it failed. */
  datatype TearReply = TearReply(ok: bool, gone: set<Resource>, erased: set<Holding>)

  datatype SpawnMove =
    | Launch
    | SetWorker(ok: bool)
    | Prepare(failure: Option<string>, wrote: bool)
    | Create(failure: Option<string>, made: bool)
    | BackendReturns(result: SpawnResult)
    | Cancelled
    | Recheck(ok: bool)
    | Persist(at: Instant, ok: bool)
    | SpawnTear(reply: TearReply)
    | Unregister

  datatype TaskMove =
    | Read(at: Instant, ok: bool)
    | Write(ok: bool)
    | Act
    | TaskTear(reply: TearReply)

  datatype Liveness = Alive | Lost | Unknown

  datatype Step =
    | Tick(now: Instant)
    | Insert(id: ClusterId, owner: ClientId, service: ServiceSpec, ttl: Duration, at: Instant)
    | DeleteArrives(id: ClusterId, owner: ClientId)
    | ReaperSees(id: ClusterId, now: Instant)
    | MountWrites(resource: Resource)
    | Crash
    | ReconList(ok: bool)
    | ReconTake(id: ClusterId, at: Instant, liveness: Liveness, ok: bool)
    | ReconDone
    | SpawnStep(id: ClusterId, spawnMove: SpawnMove)
    | TaskStep(index: nat, move: TaskMove)

  function PrepareCalls(kind: ServiceKind): nat {
    match kind
    case Postgres => 1      // the slot directory itself
    case Supabase => 2      // project/functions, then the adopted tree
  }

  function Plan(kind: ServiceKind): seq<ResourceName> {
    match kind
    case Postgres => [Container("")]
    case Supabase =>
      [Network, Container("db"), Container("rest"), Container("auth"), Container("kong"), Container("functions")]
  }

  predicate InDoSpawn(pc: SpawnPc) {
    pc.AtWorker? || pc.AtPrepare? || pc.AtBackend?
  }

  /** A spawn task that has not yet reached its conclusion. */
  predicate Active(s: System, id: ClusterId) {
    id in s.spawns && !s.spawns[id].pc.Finishing?
  }

  function SetState(rows: map<ClusterId, Cluster>, id: ClusterId, state: ClusterState): map<ClusterId, Cluster> {
    if id in rows then rows[id := rows[id].(state := state)] else rows
  }

  function AccountName(cluster: Cluster): string {
    match cluster.worker
    case Some(worker) => worker.name
    case None => ""
  }

  // ----- teardown, shared by spawn tasks, teardown tasks and reconciliation -----

  ghost predicate HasResources(s: System, id: ClusterId) {
    exists r :: r in s.res && r.id == id
  }

  ghost predicate HasHoldings(s: System, id: ClusterId) {
    exists h :: h in s.dirs && h.id == id
  }

  ghost function AfterTearBackend(cfg: Settings, s: System, c: Cluster, reply: TearReply): System {
    if c.service.kind !in cfg.backends then s
    else if reply.ok then s.(res := set r | r in s.res && r.id != c.id)
    else
      var s1 := s.(res := set r | r in s.res && !(r.id == c.id && r in reply.gone));
      if HasResources(s1, c.id) then s1.(leaked := s1.leaked + {c.id}) else s1
  }

  ghost function AfterTearWipe(s: System, c: Cluster, reply: TearReply): System {
    if c.worker.None? then s
    else
      var w := c.worker.value;
      if reply.ok then s.(dirs := set h | h in s.dirs && !(h.account == w.name && h.slot == c.slot))
      else
        var s1 := s.(dirs := set h | h in s.dirs && !(h.account == w.name && h.slot == c.slot && h in reply.erased));
        if HasHoldings(s1, c.id) then s1.(leaked := s1.leaked + {c.id}) else s1
  }

  ghost function AfterTear(cfg: Settings, s: System, c: Cluster, at: TearPc, reply: TearReply): System {
    match at
    case TearBackend => AfterTearBackend(cfg, s, c, reply)
    case TearWipe => AfterTearWipe(s, c, reply)
    case TearRow => if reply.ok then s.(rows := s.rows - {c.id}) else s
  }

  // ----- spawn task -----

  ghost predicate SpawnEnabled(s: System, id: ClusterId, m: SpawnMove) {
    && id in s.spawns
    && var pc := s.spawns[id].pc;
    match m
    case Launch => pc.Launching?
    case SetWorker(_) => pc.AtWorker?
    case Prepare(_, _) => pc.AtPrepare?
    case Create(failure, made) => pc.AtBackend? && pc.plan != [] && (failure.None? ==> made)
    case BackendReturns(result) => pc.AtBackend? && (result.Connected? ==> pc.plan == [])
    case Cancelled => InDoSpawn(pc) && id in s.tokens && s.tokens[id]
    case Recheck(_) => pc.AtRecheck?
    case Persist(at, _) => pc.AtPersist? && at <= s.clock
    case SpawnTear(_) => pc.Tearing?
    case Unregister => pc.Finishing?
  }

  function Goto(s: System, id: ClusterId, pc: SpawnPc): System
    requires id in s.spawns
  {
    s.(spawns := s.spawns[id := s.spawns[id].(pc := pc)])
  }

  function AfterSetWorker(cfg: Settings, s: System, id: ClusterId, ok: bool): System
    requires id in s.spawns
  {
    var c := s.spawns[id].cluster;
    if c.service.kind !in cfg.backends then
      Goto(s, id, AtRecheck(SpawnError("no backend registered for this service kind")))
    else if c.owner !in cfg.accounts then
      Goto(s, id, AtRecheck(SpawnError("worker preparation failed")))
    else
      var worker := Some(cfg.accounts[c.owner]);
      var s1 := s.(spawns := s.spawns[id := s.spawns[id].(cluster := c.(worker := worker))]);
      if ok && id in s.rows then
        Goto(s1.(rows := s.rows[id := s.rows[id].(worker := worker)]), id, AtPrepare(PrepareCalls(c.service.kind)))
      else
        Goto(s1, id, AtRecheck(SpawnError("internal storage error")))
  }

  function AfterPrepare(s: System, id: ClusterId, failure: Option<string>, wrote: bool): System
    requires id in s.spawns && s.spawns[id].pc.AtPrepare?
  {
    var c := s.spawns[id].cluster;
    var left := s.spawns[id].pc.left;
    var s1 := if wrote then s.(dirs := s.dirs + {Holding(AccountName(c), c.slot, id)}) else s;
    match failure
    case Some(summary) => Goto(s1, id, AtRecheck(SpawnError(summary)))
    case None => Goto(s1, id, if left <= 1 then AtBackend(Plan(c.service.kind)) else AtPrepare(left - 1))
  }

  function AfterCreate(s: System, id: ClusterId, failure: Option<string>, made: bool): System
    requires id in s.spawns && s.spawns[id].pc.AtBackend? && s.spawns[id].pc.plan != []
  {
    var c := s.spawns[id].cluster;
    var plan := s.spawns[id].pc.plan;
    var s1 := if made then s.(res := s.res + {Resource(id, plan[0], AccountName(c), c.slot)}) else s;
    match failure
    case Some(summary) => Goto(s1, id, AtRecheck(SpawnError(summary)))
    case None => Goto(s1, id, AtBackend(plan[1..]))
  }

  /** The re-check of the persisted state; a failed read falls back on the task's own copy. */
  function AfterRecheck(s: System, id: ClusterId, ok: bool): System
    requires id in s.spawns && s.spawns[id].pc.AtRecheck?
  {
    var result := s.spawns[id].pc.result;
    if !ok then
      var known := s.spawns[id].cluster.state;
      Goto(s, id, if known.Deleting? then Tearing(TearBackend) else AtPersist(result, known))
    else if id !in s.rows || s.rows[id].state.Deleting? then Goto(s, id, Tearing(TearBackend))
    else Goto(s, id, AtPersist(result, s.rows[id].state))
  }

  function Conclusion(c: Cluster, result: SpawnResult, at: Instant): ClusterEvent {
    match result
    case Connected(connection) => SpawnSucceeded(at, at + c.requestedTtl, connection)
    case SpawnError(summary) => SpawnFailure(at, summary)
  }

  function AfterPersist(s: System, id: ClusterId, at: Instant, ok: bool): System
    requires id in s.spawns && s.spawns[id].pc.AtPersist?
  {
    var sp := s.spawns[id];
    match Transition(sp.pc.seen, Conclusion(sp.cluster, sp.pc.result, at))
    case Ok(state) => Goto(if ok then s.(rows := SetState(s.rows, id, state)) else s, id, Finishing)
    case Err(_) => Goto(s, id, Finishing)
  }

  ghost function AfterSpawnTear(cfg: Settings, s: System, id: ClusterId, reply: TearReply): System
    requires id in s.spawns && s.spawns[id].pc.Tearing?
  {
    var at := s.spawns[id].pc.at;
    var s1 := AfterTear(cfg, s, s.spawns[id].cluster, at, reply);
    match at
    case TearBackend => Goto(s1, id, Tearing(TearWipe)).(tearers := s.tearers + {BySpawn(id)})
    case TearWipe => Goto(s1, id, Tearing(TearRow))
    case TearRow => Goto(s1, id, Finishing)
  }

  ghost function ApplySpawn(cfg: Settings, s: System, id: ClusterId, m: SpawnMove): System
    requires SpawnEnabled(s, id, m)
  {
    match m
    case Launch => Goto(s, id, AtWorker).(tokens := s.tokens[id := false])
    case SetWorker(ok) => AfterSetWorker(cfg, s, id, ok)
    case Prepare(failure, wrote) => AfterPrepare(s, id, failure, wrote)
    case Create(failure, made) => AfterCreate(s, id, failure, made)
    case BackendReturns(result) => Goto(s, id, AtRecheck(result))
    case Cancelled => Goto(s, id, Tearing(TearBackend))
    case Recheck(ok) => AfterRecheck(s, id, ok)
    case Persist(at, ok) => AfterPersist(s, id, at, ok)
    case SpawnTear(reply) => AfterSpawnTear(cfg, s, id, reply)
    case Unregister => s.(spawns := s.spawns - {id}, tokens := s.tokens - {id})
  }

  // ----- delete requests and teardown tasks -----

  ghost predicate TaskEnabled(s: System, i: nat, m: TaskMove) {
    && i < |s.tasks|
    && var t := s.tasks[i];
    match m
    case Read(at, _) => t.DeleteCall? && at <= s.clock
    case Write(_) => t.DeleteWrite?
    case Act => t.Dispatch?
    case TaskTear(_) => t.Teardown?
  }

  function Become(s: System, i: nat, t: Task): System
    requires i < |s.tasks|
  {
    s.(tasks := s.tasks[i := t])
  }

  /** The owner-scoped read, and the transition computed from it. */
  function AfterRead(s: System, i: nat, at: Instant, ok: bool): System
    requires i < |s.tasks| && s.tasks[i].DeleteCall?
  {
    var t := s.tasks[i];
    if !ok || t.id !in s.rows || s.rows[t.id].owner != t.owner then Become(s, i, Done)
    else
      var c := s.rows[t.id];
      match Transition(c.state, DeleteRequested(at, t.reason))
      case Ok(next) => Become(s, i, DeleteWrite(c, next, OutcomeOf(c.state), t.byReaper))
      case Err(_) => Become(s, i, Done)
  }

  /** The write-back; it fails if the row is gone. */
  function AfterWrite(s: System, i: nat, ok: bool): System
    requires i < |s.tasks| && s.tasks[i].DeleteWrite?
  {
    var t := s.tasks[i];
    if !ok || t.cluster.id !in s.rows then Become(s, i, Done)
    else
      Become(s, i, Dispatch(t.cluster.(state := t.next), t.outcome, t.byReaper)).(
        rows := SetState(s.rows, t.cluster.id, t.next))
  }

  function AfterAct(s: System, i: nat): System
    requires i < |s.tasks| && s.tasks[i].Dispatch?
  {
    var t := s.tasks[i];
    match t.outcome
    case StartTeardown => Become(s, i, Teardown(t.cluster, TearBackend))
    case AlreadyDeleting => Become(s, i, Done)
    case CancelSpawn =>
      var s1 := Become(s, i, Done);
      if !t.byReaper && t.cluster.id in s.tokens then s1.(tokens := s.tokens[t.cluster.id := true]) else s1
  }

  ghost function AfterTaskTear(cfg: Settings, s: System, i: nat, reply: TearReply): System
    requires i < |s.tasks| && s.tasks[i].Teardown?
  {
    var t := s.tasks[i];
    var s1 := AfterTear(cfg, s, t.cluster, t.at, reply);
    match t.at
    case TearBackend => Become(s1, i, Teardown(t.cluster, TearWipe)).(tearers := s.tearers + {ByTask(t.cluster.id, i)})
    case TearWipe => Become(s1, i, Teardown(t.cluster, TearRow))
    case TearRow => Become(s1, i, Done)
  }

  ghost function ApplyTask(cfg: Settings, s: System, i: nat, m: TaskMove): System
    requires TaskEnabled(s, i, m)
  {
    match m
    case Read(at, ok) => AfterRead(s, i, at, ok)
    case Write(ok) => AfterWrite(s, i, ok)
    case Act => AfterAct(s, i)
    case TaskTear(reply) => AfterTaskTear(cfg, s, i, reply)
  }

  // ----- everything else -----

  ghost predicate AllDone(s: System) {
    forall i :: 0 <= i < |s.tasks| ==> s.tasks[i].Done?
  }

  ghost predicate Enabled(cfg: Settings, s: System, step: Step) {
    match step
    case Tick(now) => now >= s.clock
    case Insert(id, owner, service, ttl, at) =>
      && s.phase.Serving? && id !in s.issued && at <= s.clock
      && cfg.minTtl <= ttl <= cfg.maxTtl
      && |RowsOf(s.rows, owner)| < cfg.maxClustersPerUser
      && FirstFree(UsedSlots(s.rows, owner), 0, cfg.maxClustersPerUser).Some?
    case DeleteArrives(_, _) => s.phase.Serving?
    case ReaperSees(id, now) =>
      && s.phase.Serving? && now <= s.clock
      && id in s.rows && DueForReaping(s.rows[id].state, now, cfg.failedGrace).Some?
    case MountWrites(r) => r in s.res && r.name.Container?
    case Crash => true
    case ReconList(_) => s.phase.Booting?
    case ReconTake(id, at, _, _) => s.phase.Reconciling? && id in s.phase.todo && AllDone(s) && at <= s.clock
    case ReconDone => s.phase.Reconciling? && s.phase.todo == map[] && AllDone(s)
    case SpawnStep(id, m) => SpawnEnabled(s, id, m)
    case TaskStep(i, m) => TaskEnabled(s, i, m)
  }

  function AfterInsert(cfg: Settings, s: System, c: Cluster): System
    requires FirstFree(UsedSlots(s.rows, c.owner), 0, cfg.maxClustersPerUser).Some?
  {
    var slot := FirstFree(UsedSlots(s.rows, c.owner), 0, cfg.maxClustersPerUser).value;
    var stored := c.(slot := slot);
    s.(rows := s.rows[c.id := stored], issued := s.issued + {c.id}, spawns := s.spawns[c.id := Spawn(stored, Launching)])
  }

  /** One row of the startup pass. */
  function AfterReconTake(cfg: Settings, s: System, id: ClusterId, at: Instant, liveness: Liveness, ok: bool): System
    requires s.phase.Reconciling? && id in s.phase.todo
  {
    var c := s.phase.todo[id];
    var s1 := s.(phase := Reconciling(s.phase.todo - {id}));
    match c.state
    case Spawning(_) =>
      if ok && id in s.rows then
        var deleting := Deleting(at, AdminForced);
        s1.(rows := SetState(s.rows, id, deleting),
            tasks := s.tasks + [Teardown(c.(state := deleting), TearBackend)])
      else s1
    case Ready(_, _, _) =>
      if c.service.kind in cfg.backends && liveness.Lost? && ok
      then s1.(rows := SetState(s.rows, id, Failed(at, "lost after restart")))
      else s1
    case Deleting(_, _) => s1.(tasks := s.tasks + [Teardown(c, TearBackend)])
    case Failed(_, _) => s1
  }

  ghost function Apply(cfg: Settings, s: System, step: Step): System
    requires Enabled(cfg, s, step)
  {
    match step
    case Tick(now) => s.(clock := now)
    case Insert(id, owner, service, ttl, at) =>
      AfterInsert(cfg, s, Cluster(id, owner, service, ttl, at, Spawning(at), None, 0))
    case DeleteArrives(id, owner) => s.(tasks := s.tasks + [DeleteCall(id, owner, UserRequested, false)])
    case ReaperSees(id, now) =>
      var reason := DueForReaping(s.rows[id].state, now, cfg.failedGrace).value;
      s.(tasks := s.tasks + [DeleteCall(id, s.rows[id].owner, reason, true)])
    case MountWrites(r) => s.(dirs := s.dirs + {Holding(r.account, r.slot, r.id)})
    case Crash => s.(phase := Booting, tokens := map[], spawns := map[], tasks := [], tearers := {})
    case ReconList(ok) => s.(phase := if ok then Reconciling(s.rows) else Serving)
    case ReconTake(id, at, liveness, ok) => AfterReconTake(cfg, s, id, at, liveness, ok)
    case ReconDone => s.(phase := Serving)
    case SpawnStep(id, m) => ApplySpawn(cfg, s, id, m)
    case TaskStep(i, m) => ApplyTask(cfg, s, i, m)
  }

  /** The cluster a step reads, writes or provisions, if it is about one. */
  function StepOn(s: System, step: Step): Option<ClusterId> {
    match step
    case Insert(id, _, _, _, _) => Some(id)
    case ReconTake(id, _, _, _) => Some(id)
    case SpawnStep(id, _) => Some(id)
    case TaskStep(i, _) => if i < |s.tasks| then TaskId(s.tasks[i]) else None
    case _ => None
  }

  /** A run: states `ss` joined by `steps`, from a fresh start. */
  ghost predicate Run(cfg: Settings, ss: seq<System>, steps: seq<Step>) {
    && |ss| == |steps| + 1
    && Init(ss[0])
    && forall k :: 0 <= k < |steps| ==> Enabled(cfg, ss[k], steps[k]) && ss[k + 1] == Apply(cfg, ss[k], steps[k])
  }
}
