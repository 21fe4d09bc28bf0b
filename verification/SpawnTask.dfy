/** The background task that provisions one cluster, as the code runs it, and the protocol moves it
    takes. Other tasks may act between the phases; each phase is proved to follow the protocol. */
module SpawnTask {
  import opened Domain
  import opened Repository
  import opened RepositoryRefinement
  import opened Lifecycle
  import opened TeardownTask

  /** How a privileged call or a container call ends, and whether it took effect. */
  datatype CallReply = CallReply(failure: Option<string>, effect: bool)

  /** What the calls of one spawn answer; `dropAfter` is the number of calls completed when the
      cancellation token fires, if it does. */
  datatype Script = Script(
    dropAfter: Option<nat>,
    stored: bool,
    prepare: nat -> CallReply,
    create: ResourceName -> CallReply,
    result: SpawnResult,
    rechecked: bool,
    concludedAt: Instant,
    persisted: bool,
    tear: TearReplies)

  datatype SpawnEnd = Finished(result: SpawnResult) | Dropped

  /** The shared state of the code is that of the protocol. */
  ghost predicate Matches(deps: TaskDeps, s: System)
    reads deps, deps.repository
  {
    && Readable(deps.repository.table) && s.rows == Decoded(deps.repository.table)
    && s.res == deps.res && s.dirs == deps.dirs
  }

  /** Move `m` of the spawn task of `id` gets the answers that the script has for it. */
  ghost predicate Scripted(script: Script, u: System, id: ClusterId, m: SpawnMove)
    requires SpawnEnabled(u, id, m)
  {
    match m
    case SetWorker(ok) => ok == script.stored
    case Prepare(failure, wrote) => CallReply(failure, wrote) == script.prepare(u.spawns[id].pc.left)
    case Create(failure, made) => CallReply(failure, made) == script.create(u.spawns[id].pc.plan[0])
    case BackendReturns(result) => u.spawns[id].pc.plan == [] && result == script.result
    case Cancelled => script.dropAfter.Some?
    case Recheck(ok) => ok == script.rechecked
    case Persist(at, ok) => at == script.concludedAt && ok == script.persisted
    case SpawnTear(reply) => reply == TearAnswer(script.tear, u.spawns[id].pc.at)
    case _ => false
  }

  function TearAnswer(tear: TearReplies, at: TearPc): TearReply {
    match at
    case TearBackend => tear.backend
    case TearWipe => tear.wipe
    case TearRow => TearReply(tear.deleted, {}, {})
  }

  /** A set of states that no scripted move of the spawn task of `id` leaves. */
  ghost predicate Closed(cfg: Settings, script: Script, id: ClusterId, states: iset<System>) {
    forall u, m :: u in states && SpawnEnabled(u, id, m) && Scripted(script, u, id, m) ==> ApplySpawn(cfg, u, id, m) in states
  }

  /** The spawn task of `id`, answered as scripted, takes `s` to `t` by moves of its own: `t` is in the
      smallest closed set around `s`. */
  ghost predicate Reaches(cfg: Settings, script: Script, s: System, id: ClusterId, t: System) {
    forall states: iset<System> :: s in states && Closed(cfg, script, id, states) ==> t in states
  }

  lemma ReachMore(cfg: Settings, script: Script, s: System, id: ClusterId, u: System, m: SpawnMove)
    requires Reaches(cfg, script, s, id, u) && SpawnEnabled(u, id, m) && Scripted(script, u, id, m)
    ensures Reaches(cfg, script, s, id, ApplySpawn(cfg, u, id, m))
  {
  }

  lemma ReachOn(cfg: Settings, script: Script, s: System, id: ClusterId, u: System, t: System)
    requires Reaches(cfg, script, s, id, u) && Reaches(cfg, script, u, id, t)
    ensures Reaches(cfg, script, s, id, t)
  {
  }

  // ----- the script decides where the task ends -----

  lemma OneScriptedMove(script: Script, u: System, id: ClusterId, m: SpawnMove, n: SpawnMove)
    requires script.dropAfter.None?
    requires SpawnEnabled(u, id, m) && Scripted(script, u, id, m)
    requires SpawnEnabled(u, id, n) && Scripted(script, u, id, n)
    ensures m == n
  {
  }

  lemma ReachesAfterMove(cfg: Settings, script: Script, u: System, id: ClusterId, m: SpawnMove, t: System)
    requires script.dropAfter.None? && Reaches(cfg, script, u, id, t) && u != t
    requires SpawnEnabled(u, id, m) && Scripted(script, u, id, m)
    ensures Reaches(cfg, script, ApplySpawn(cfg, u, id, m), id, t)
  {
    var v := ApplySpawn(cfg, u, id, m);
    forall states: iset<System> | v in states && Closed(cfg, script, id, states) ensures t in states {
      var wider := states + iset{u};
      forall w, n | w in wider && SpawnEnabled(w, id, n) && Scripted(script, w, id, n)
        ensures ApplySpawn(cfg, w, id, n) in wider
      {
        if w == u {
          OneScriptedMove(script, u, id, m, n);
        }
      }
      assert u in wider && Closed(cfg, script, id, wider);
    }
  }

  /** A task that is not cancelled ends in one state only, and the script alone decides which. */
  lemma ScriptDecides(cfg: Settings, script: Script, s: System, id: ClusterId, t: System, t': System)
    requires script.dropAfter.None? && Reaches(cfg, script, s, id, t) && Reaches(cfg, script, s, id, t')
    requires id in t.spawns && t.spawns[id].pc == Finishing && id in t'.spawns && t'.spawns[id].pc == Finishing
    ensures t == t'
  {
    var towards := iset u | Reaches(cfg, script, u, id, t);
    forall u, m | u in towards && SpawnEnabled(u, id, m) && Scripted(script, u, id, m)
      ensures ApplySpawn(cfg, u, id, m) in towards
    {
      ReachesAfterMove(cfg, script, u, id, m, t);
    }
    assert s in towards && Closed(cfg, script, id, towards);
    assert Reaches(cfg, script, t', id, t);
    assert Closed(cfg, script, id, iset{t'});
    assert t' in iset{t'};
  }

  predicate DropsAt(script: Script, calls: nat) {
    script.dropAfter == Some(calls)
  }

  /** The account is looked up and persisted before anything is prepared. */
  method AssignWorker(deps: TaskDeps, c: Cluster, script: Script, ghost s: System)
    returns (failed: Option<SpawnResult>, updated: Cluster, ghost t: System)
    requires Matches(deps, s) && c.id in s.spawns && s.spawns[c.id] == Spawn(c, AtWorker)
    modifies deps`calls, deps.repository
    ensures Matches(deps, t) && Reaches(deps.cfg, script, s, c.id, t)
    ensures t.tokens == s.tokens && t.clock == s.clock
    ensures c.id in t.spawns && updated.id == c.id
    ensures t.spawns[c.id] == Spawn(updated, if failed.Some? then AtRecheck(failed.value) else AtPrepare(PrepareCalls(c.service.kind)))
    ensures updated == c.(worker := updated.worker)
    ensures failed.Some? ==> failed.value.SpawnError? && (deps.calls == old(deps.calls) || deps.calls == old(deps.calls) + [StoreWorker(c.id)])
    ensures failed.None? ==>
              && c.owner in deps.cfg.accounts && updated == c.(worker := Some(deps.cfg.accounts[c.owner]))
              && c.id in s.rows && t.rows == s.rows[c.id := s.rows[c.id].(worker := Some(deps.cfg.accounts[c.owner]))]
              && deps.calls == old(deps.calls) + [StoreWorker(c.id)]
  {
    updated := c;
    t := AfterSetWorker(deps.cfg, s, c.id, script.stored);
    ReachMore(deps.cfg, script, s, c.id, s, SpawnMove.SetWorker(script.stored));
    if c.service.kind !in deps.cfg.backends {
      return Some(SpawnError("no backend registered for this service kind")), updated, t;
    }
    if c.owner !in deps.cfg.accounts {
      return Some(SpawnError("worker preparation failed")), updated, t;
    }
    var worker := deps.cfg.accounts[c.owner];
    updated := c.(worker := Some(worker));
    deps.calls := deps.calls + [StoreWorker(c.id)];
    if !script.stored {
      return Some(SpawnError("internal storage error")), updated, t;
    }
    ModifyDecodes(deps.repository.table, c.id, Spawning(0), worker);
    var outcome := deps.repository.SetWorker(c.id, worker);
    match outcome {
      case Err(_) => failed := Some(SpawnError("internal storage error"));
      case Ok(_) => failed := None;
    }
  }

  /** The privileged call to make when `left` are left. */
  function PrivilegedCall(c: Cluster, left: nat): Call {
    match c.service.kind
    case Postgres => PrepareWorkerDir(AccountName(c), c.slot, "")
    case Supabase =>
      if left == 2 then PrepareWorkerDir(AccountName(c), c.slot, "project/functions") else AdoptStagedTree(AccountName(c), c.slot)
  }

  /** All privileged calls of a spawn, in order. */
  function PrivilegedCalls(c: Cluster): (calls: seq<Call>)
    ensures |calls| == PrepareCalls(c.service.kind)
  {
    seq(PrepareCalls(c.service.kind), i requires 0 <= i < PrepareCalls(c.service.kind) =>
      PrivilegedCall(c, PrepareCalls(c.service.kind) - i))
  }

  /** The creations of a plan, in order. */
  function Creations(id: ClusterId, plan: seq<ResourceName>): (calls: seq<Call>)
    ensures |calls| == |plan|
  {
    seq(|plan|, i requires 0 <= i < |plan| => CreateResource(id, plan[i]))
  }

  /** One privileged call. */
  method PrepareOne(deps: TaskDeps, c: Cluster, script: Script, left: nat, ghost s: System)
    returns (failure: Option<string>, ghost t: System)
    requires Matches(deps, s) && c.id in s.spawns && s.spawns[c.id] == Spawn(c, AtPrepare(left)) && left > 0
    modifies deps`dirs, deps`calls
    ensures Matches(deps, t) && Reaches(deps.cfg, script, s, c.id, t)
    ensures t.tokens == s.tokens && t.clock == s.clock && t.res == s.res && t.rows == s.rows
    ensures deps.calls == old(deps.calls) + [PrivilegedCall(c, left)] && failure == script.prepare(left).failure
    ensures deps.dirs == if script.prepare(left).effect then old(deps.dirs) + {Holding(AccountName(c), c.slot, c.id)}
                         else old(deps.dirs)
    ensures c.id in t.spawns
    ensures t.spawns[c.id] == Spawn(c, if failure.Some? then AtRecheck(SpawnError(failure.value))
                                       else if left > 1 then AtPrepare(left - 1) else AtBackend(Plan(c.service.kind)))
  {
    deps.calls := deps.calls + [PrivilegedCall(c, left)];
    var reply := script.prepare(left);
    if reply.effect {
      deps.dirs := deps.dirs + {Holding(AccountName(c), c.slot, c.id)};
    }
    failure := reply.failure;
    t := AfterPrepare(s, c.id, reply.failure, reply.effect);
    ReachMore(deps.cfg, script, s, c.id, s, Prepare(reply.failure, reply.effect));
  }

  /** Directories are prepared, and an uploaded tree adopted, one privileged call at a time. */
  method PrepareDirectories(deps: TaskDeps, c: Cluster, script: Script, calls: nat, ghost s: System)
    returns (failed: Option<SpawnEnd>, made: nat, ghost t: System)
    requires Matches(deps, s) && c.id in s.spawns && s.spawns[c.id] == Spawn(c, AtPrepare(PrepareCalls(c.service.kind)))
    modifies deps`dirs, deps`calls
    ensures Matches(deps, t) && Reaches(deps.cfg, script, s, c.id, t)
    ensures t.tokens == s.tokens && t.clock == s.clock && t.res == s.res && t.rows == s.rows
    ensures c.id in t.spawns && t.spawns[c.id].cluster == c
    ensures calls <= made <= calls + |PrivilegedCalls(c)|
    ensures deps.calls == old(deps.calls) + PrivilegedCalls(c)[..made - calls]
    ensures failed.None? ==> t.spawns[c.id].pc == AtBackend(Plan(c.service.kind)) && made == calls + |PrivilegedCalls(c)|
    ensures failed.Some? && failed.value.Finished? ==>
              failed.value.result.SpawnError? && t.spawns[c.id].pc == AtRecheck(failed.value.result)
    ensures failed.Some? && failed.value.Finished? ==>
              && made > calls
              && script.prepare(PrepareCalls(c.service.kind) - (made - calls - 1)).failure == Some(failed.value.result.summary)
    ensures failed.Some? && failed.value.Dropped? ==> script.dropAfter.Some? && InDoSpawn(t.spawns[c.id].pc)
  {
    made := calls;
    t := s;
    var left := PrepareCalls(c.service.kind);
    while left > 0
      invariant Matches(deps, t) && Reaches(deps.cfg, script, s, c.id, t)
      invariant t.tokens == s.tokens && t.clock == s.clock && t.res == s.res && t.rows == s.rows
      invariant c.id in t.spawns
      invariant t.spawns[c.id] == Spawn(c, if left > 0 then AtPrepare(left) else AtBackend(Plan(c.service.kind)))
      invariant 0 <= left <= |PrivilegedCalls(c)| && made == calls + |PrivilegedCalls(c)| - left
      invariant deps.calls == old(deps.calls) + PrivilegedCalls(c)[..made - calls]
    {
      if DropsAt(script, made) {
        return Some(Dropped), made, t;
      }
      OneMorePrivileged(c, made - calls);
      ghost var u := t;
      var failure;
      failure, t := PrepareOne(deps, c, script, left, u);
      ReachOn(deps.cfg, script, s, c.id, u, t);
      made := made + 1;
      if failure.Some? {
        return Some(Finished(SpawnError(failure.value))), made, t;
      }
      left := left - 1;
    }
    failed := None;
  }

  lemma OneMorePrivileged(c: Cluster, n: nat)
    requires n < |PrivilegedCalls(c)|
    ensures PrivilegedCalls(c)[..n + 1] == PrivilegedCalls(c)[..n] + [PrivilegedCall(c, |PrivilegedCalls(c)| - n)]
  {
  }

  /** The first `n` resources of a plan are there, in the cluster's directory. */
  ghost predicate Created(c: Cluster, plan: seq<ResourceName>, res: set<Resource>, n: nat)
    requires n <= |plan|
  {
    forall i :: 0 <= i < n ==> Resource(c.id, plan[i], AccountName(c), c.slot) in res
  }

  lemma OneMoreCreation(id: ClusterId, plan: seq<ResourceName>, n: nat)
    requires n < |plan|
    ensures Creations(id, plan[..n + 1]) == Creations(id, plan[..n]) + [CreateResource(id, plan[n])]
    ensures plan[n..][1..] == plan[n + 1..]
  {
  }

  /** One creation. */
  method CreateOne(deps: TaskDeps, c: Cluster, script: Script, plan: seq<ResourceName>, ghost s: System)
    returns (failure: Option<string>, ghost t: System)
    requires Matches(deps, s) && c.id in s.spawns && s.spawns[c.id] == Spawn(c, AtBackend(plan)) && plan != []
    requires script.create(plan[0]).failure.None? ==> script.create(plan[0]).effect
    modifies deps`res, deps`calls
    ensures Matches(deps, t) && Reaches(deps.cfg, script, s, c.id, t)
    ensures t.tokens == s.tokens && t.clock == s.clock && t.rows == s.rows
    ensures deps.calls == old(deps.calls) + [CreateResource(c.id, plan[0])] && failure == script.create(plan[0]).failure
    ensures deps.res == if script.create(plan[0]).effect
                        then old(deps.res) + {Resource(c.id, plan[0], AccountName(c), c.slot)} else old(deps.res)
    ensures c.id in t.spawns
    ensures t.spawns[c.id] == Spawn(c, if failure.Some? then AtRecheck(SpawnError(failure.value)) else AtBackend(plan[1..]))
  {
    deps.calls := deps.calls + [CreateResource(c.id, plan[0])];
    var reply := script.create(plan[0]);
    if reply.effect {
      deps.res := deps.res + {Resource(c.id, plan[0], AccountName(c), c.slot)};
    }
    failure := reply.failure;
    t := AfterCreate(s, c.id, reply.failure, reply.effect);
    ReachMore(deps.cfg, script, s, c.id, s, Create(reply.failure, reply.effect));
  }

  /** The backend creates its resources in order and returns. */
  method RunBackend(deps: TaskDeps, c: Cluster, script: Script, calls: nat, ghost s: System)
    returns (end: SpawnEnd, n: nat, ghost t: System)
    requires Matches(deps, s) && c.id in s.spawns && s.spawns[c.id] == Spawn(c, AtBackend(Plan(c.service.kind)))
    requires forall name :: script.create(name).failure.None? ==> script.create(name).effect
    modifies deps`res, deps`calls
    ensures Matches(deps, t) && Reaches(deps.cfg, script, s, c.id, t) && t.tokens == s.tokens && t.clock == s.clock
    ensures c.id in t.spawns && t.spawns[c.id].cluster == c && t.rows == s.rows
    ensures n <= |Plan(c.service.kind)| && deps.calls == old(deps.calls) + Creations(c.id, Plan(c.service.kind)[..n])
    ensures end.Finished? ==> t.spawns[c.id].pc == AtRecheck(end.result)
    ensures end.Finished? ==>
              if n > 0 && script.create(Plan(c.service.kind)[n - 1]).failure.Some?
              then end.result == SpawnError(script.create(Plan(c.service.kind)[n - 1]).failure.value)
              else end.result == script.result && n == |Plan(c.service.kind)|
    ensures end.Finished? && end.result.Connected? ==>
              n == |Plan(c.service.kind)| && Created(c, Plan(c.service.kind), t.res, n)
    ensures end.Dropped? ==> script.dropAfter.Some? && InDoSpawn(t.spawns[c.id].pc)
  {
    t := s;
    ghost var all := Plan(c.service.kind);
    var plan := Plan(c.service.kind);
    var made := calls;
    n := 0;
    while plan != []
      invariant Matches(deps, t) && Reaches(deps.cfg, script, s, c.id, t) && t.tokens == s.tokens && t.clock == s.clock
      invariant c.id in t.spawns && t.spawns[c.id] == Spawn(c, AtBackend(plan)) && t.rows == s.rows
      invariant n <= |all| && plan == all[n..] && Created(c, all, t.res, n)
      invariant n > 0 ==> script.create(all[n - 1]).failure.None?
      invariant deps.calls == old(deps.calls) + Creations(c.id, all[..n])
    {
      if DropsAt(script, made) {
        return Dropped, n, t;
      }
      OneMoreCreation(c.id, all, n);
      ghost var u := t;
      var failure;
      failure, t := CreateOne(deps, c, script, plan, u);
      ReachOn(deps.cfg, script, s, c.id, u, t);
      made := made + 1;
      n := n + 1;
      if failure.Some? {
        return Finished(SpawnError(failure.value)), n, t;
      }
      plan := plan[1..];
    }
    if DropsAt(script, made) {
      return Dropped, n, t;
    }
    ReachMore(deps.cfg, script, s, c.id, t, BackendReturns(script.result));
    t := Goto(t, c.id, AtRecheck(script.result));
    end := Finished(script.result);
  }

  /** The row is read again; only if it is still there and not Deleting is the outcome persisted. */
  method Conclude(deps: TaskDeps, c: Cluster, result: SpawnResult, script: Script, ghost s: System)
    returns (ghost t: System)
    requires Matches(deps, s) && c.id in s.spawns && s.spawns[c.id] == Spawn(c, AtRecheck(result))
    requires script.concludedAt <= s.clock
    modifies deps, deps.repository
    ensures Matches(deps, t) && Reaches(deps.cfg, script, s, c.id, t)
    ensures c.id in t.spawns && t.spawns[c.id].pc == Finishing
    ensures script.rechecked && (c.id !in s.rows || s.rows[c.id].state.Deleting?) ==>
              deps.calls == old(deps.calls) + TeardownCalls(deps.cfg, c)
    ensures script.rechecked && c.id in s.rows && !s.rows[c.id].state.Deleting? ==>
              deps.calls == old(deps.calls) && t.res == s.res && t.dirs == s.dirs && c.id in t.rows
    ensures script.rechecked && c.id in s.rows && s.rows[c.id].state.Spawning? ==>
              t.rows == if !script.persisted then s.rows
                        else if result.Connected? then
                          s.rows[c.id := s.rows[c.id].(state := Ready(script.concludedAt, script.concludedAt + c.requestedTtl,
                                                                      result.connection))]
                        else
                          s.rows[c.id := s.rows[c.id].(state := Failed(script.concludedAt, result.summary))]
  {
    var found := deps.repository.GetAny(c.id);
    t := AfterRecheck(s, c.id, script.rechecked);
    ReachMore(deps.cfg, script, s, c.id, s, Recheck(script.rechecked));
    if script.rechecked && found == Ok(None) {
      t := TearItDown(deps, c, script, s, t);
      return;
    }
    var current := c.state;
    if script.rechecked {
      match found {
        case Ok(Some(row)) => current := row.state;
        case _ =>
      }
    }
    if current.Deleting? {
      t := TearItDown(deps, c, script, s, t);
      return;
    }
    ghost var u := t;
    t := WriteConclusion(deps, c, result, current, script, u);
    ReachOn(deps.cfg, script, s, c.id, u, t);
  }

  /** The conclusion is written if it applies to the state just read. */
  method WriteConclusion(deps: TaskDeps, c: Cluster, result: SpawnResult, current: ClusterState, script: Script, ghost s: System)
    returns (ghost t: System)
    requires Matches(deps, s) && c.id in s.spawns && s.spawns[c.id] == Spawn(c, AtPersist(result, current))
    requires script.concludedAt <= s.clock
    modifies deps.repository
    ensures Matches(deps, t) && Reaches(deps.cfg, script, s, c.id, t)
    ensures c.id in t.spawns && t.spawns[c.id].pc == Finishing
    ensures t.res == s.res && t.dirs == s.dirs && t.rows.Keys == s.rows.Keys
    ensures current.Spawning? && c.id in s.rows ==>
              t.rows == if !script.persisted then s.rows
                        else if result.Connected? then
                          s.rows[c.id := s.rows[c.id].(state := Ready(script.concludedAt, script.concludedAt + c.requestedTtl,
                                                                      result.connection))]
                        else
                          s.rows[c.id := s.rows[c.id].(state := Failed(script.concludedAt, result.summary))]
  {
    t := AfterPersist(s, c.id, script.concludedAt, script.persisted);
    ReachMore(deps.cfg, script, s, c.id, s, Persist(script.concludedAt, script.persisted));
    match Transition(current, Conclusion(c, result, script.concludedAt)) {
      case Err(_) =>
      case Ok(state) =>
        if script.persisted {
          ModifyDecodes(deps.repository.table, c.id, state, WorkerUser("", 0, 0));
          var written := deps.repository.UpdateState(c.id, state);
        }
    }
  }

  /** The three calls of a teardown, made by the spawn task itself. */
  method TearItDown(deps: TaskDeps, c: Cluster, script: Script, ghost s: System, ghost u: System)
    returns (ghost t: System)
    requires Matches(deps, u) && Reaches(deps.cfg, script, s, c.id, u)
    requires c.id in u.spawns && u.spawns[c.id] == Spawn(c, Tearing(TearBackend))
    modifies deps, deps.repository
    ensures Matches(deps, t) && Reaches(deps.cfg, script, s, c.id, t)
    ensures c.id in t.spawns && t.spawns[c.id].pc == Finishing
    ensures deps.calls == old(deps.calls) + TeardownCalls(deps.cfg, c)
  {
    t := TearMoves(deps.cfg, script, u, c);
    ReachOn(deps.cfg, script, s, c.id, u, t);
    assert Decoded(deps.repository.table - {c.id}) == Decoded(deps.repository.table) - {c.id};
    TearDown(deps, c, script.tear);
  }

  lemma TearMoves(cfg: Settings, script: Script, u: System, c: Cluster) returns (t: System)
    requires c.id in u.spawns && u.spawns[c.id] == Spawn(c, Tearing(TearBackend))
    ensures Reaches(cfg, script, u, c.id, t)
    ensures t.res == ResAfter(cfg, u.res, c, script.tear.backend) && t.dirs == DirsAfter(u.dirs, c, script.tear.wipe)
    ensures t.rows == if script.tear.deleted then u.rows - {c.id} else u.rows
    ensures c.id in t.spawns && t.spawns[c.id].pc == Finishing
  {
    var deleted := TearReply(script.tear.deleted, {}, {});
    var u1 := AfterSpawnTear(cfg, u, c.id, script.tear.backend);
    SpawnBackendStep(cfg, u, c, script.tear.backend);
    var u2 := AfterSpawnTear(cfg, u1, c.id, script.tear.wipe);
    SpawnWipeStep(cfg, u1, c, script.tear.wipe);
    t := AfterSpawnTear(cfg, u2, c.id, deleted);
    SpawnRowStep(cfg, u2, c, script.tear.deleted);
    assert u1 == ApplySpawn(cfg, u, c.id, SpawnTear(script.tear.backend));
    ReachMore(cfg, script, u, c.id, u, SpawnTear(script.tear.backend));
    ReachMore(cfg, script, u, c.id, u1, SpawnTear(script.tear.wipe));
    ReachMore(cfg, script, u, c.id, u2, SpawnTear(deleted));
  }

  lemma SpawnBackendStep(cfg: Settings, s: System, c: Cluster, reply: TearReply)
    requires c.id in s.spawns && s.spawns[c.id] == Spawn(c, Tearing(TearBackend))
    ensures var t := AfterSpawnTear(cfg, s, c.id, reply);
            && t.res == ResAfter(cfg, s.res, c, reply) && t.dirs == s.dirs && t.rows == s.rows
            && t.spawns == s.spawns[c.id := Spawn(c, Tearing(TearWipe))]
  {
  }

  lemma SpawnWipeStep(cfg: Settings, s: System, c: Cluster, reply: TearReply)
    requires c.id in s.spawns && s.spawns[c.id] == Spawn(c, Tearing(TearWipe))
    ensures var t := AfterSpawnTear(cfg, s, c.id, reply);
            && t.res == s.res && t.dirs == DirsAfter(s.dirs, c, reply) && t.rows == s.rows
            && t.spawns == s.spawns[c.id := Spawn(c, Tearing(TearRow))]
  {
  }

  lemma SpawnRowStep(cfg: Settings, s: System, c: Cluster, deleted: bool)
    requires c.id in s.spawns && s.spawns[c.id] == Spawn(c, Tearing(TearRow))
    ensures var t := AfterSpawnTear(cfg, s, c.id, TearReply(deleted, {}, {}));
            && t.res == s.res && t.dirs == s.dirs && t.rows == (if deleted then s.rows - {c.id} else s.rows)
            && t.spawns == s.spawns[c.id := Spawn(c, Finishing)]
  {
  }

  /** All calls of a spawn that succeeds, but for the first. */
  function ProvisionCalls(c: Cluster): seq<Call> {
    PrivilegedCalls(c) + Creations(c.id, Plan(c.service.kind))
  }

  lemma PreparedPrefix(c: Cluster, n: nat)
    requires n <= |PrivilegedCalls(c)|
    ensures PrivilegedCalls(c)[..n] == ProvisionCalls(c)[..n]
  {
  }

  lemma CreatedPrefix(c: Cluster, n: nat)
    requires n <= |Plan(c.service.kind)|
    ensures PrivilegedCalls(c) + Creations(c.id, Plan(c.service.kind)[..n]) == ProvisionCalls(c)[..|PrivilegedCalls(c)| + n]
  {
  }

  /** Everything after the account has been persisted. */
  method Provision(deps: TaskDeps, c: Cluster, script: Script, ghost s: System)
    returns (end: SpawnEnd, ghost n: nat, ghost t: System)
    requires Matches(deps, s) && c.id in s.spawns && s.spawns[c.id] == Spawn(c, AtPrepare(PrepareCalls(c.service.kind)))
    requires forall name :: script.create(name).failure.None? ==> script.create(name).effect
    modifies deps`dirs, deps`res, deps`calls
    ensures Matches(deps, t) && Reaches(deps.cfg, script, s, c.id, t)
    ensures t.tokens == s.tokens && t.clock == s.clock && t.rows == s.rows
    ensures c.id in t.spawns && t.spawns[c.id].cluster == c
    ensures end.Finished? ==> t.spawns[c.id].pc == AtRecheck(end.result)
    ensures end.Dropped? ==> script.dropAfter.Some? && InDoSpawn(t.spawns[c.id].pc)
    ensures n <= |ProvisionCalls(c)| && deps.calls == old(deps.calls) + ProvisionCalls(c)[..n]
    ensures end.Finished? && end.result.Connected? ==>
              && n == |ProvisionCalls(c)| && Created(c, Plan(c.service.kind), deps.res, |Plan(c.service.kind)|)
              && end.result == script.result
  {
    var stopped, made;
    stopped, made, t := PrepareDirectories(deps, c, script, 1, s);
    PreparedPrefix(c, made - 1);
    n := made - 1;
    if stopped.Some? {
      end := stopped.value;
      return;
    }
    ghost var u := t;
    var created;
    end, created, t := RunBackend(deps, c, script, made, u);
    ReachOn(deps.cfg, script, s, c.id, u, t);
    CreatedPrefix(c, created);
    n := n + created;
  }

  lemma PrivilegedCallsExactly(c: Cluster)
    ensures c.service.kind.Postgres? ==> PrivilegedCalls(c) == [PrepareWorkerDir(AccountName(c), c.slot, "")]
    ensures c.service.kind.Supabase? ==>
              PrivilegedCalls(c) == [PrepareWorkerDir(AccountName(c), c.slot, "project/functions"),
                                     AdoptStagedTree(AccountName(c), c.slot)]
  {
    var calls := PrivilegedCalls(c);
    if c.service.kind.Postgres? {
      assert |calls| == 1 && calls[0] == PrivilegedCall(c, 1);
    } else {
      assert |calls| == 2 && calls[0] == PrivilegedCall(c, 2) && calls[1] == PrivilegedCall(c, 1);
    }
  }

  lemma CreationsExactly(id: ClusterId)
    ensures Creations(id, Plan(Postgres)) == [CreateResource(id, Container(""))]
    ensures Creations(id, Plan(Supabase))
            == [CreateResource(id, Network), CreateResource(id, Container("db")), CreateResource(id, Container("rest")),
                CreateResource(id, Container("auth")), CreateResource(id, Container("kong")),
                CreateResource(id, Container("functions"))]
  {
    var one, stack := Plan(Postgres), Plan(Supabase);
    assert |one| == 1 && one[0] == Container("");
    assert |stack| == 6 && stack[0] == Network && stack[1] == Container("db") && stack[2] == Container("rest")
        && stack[3] == Container("auth") && stack[4] == Container("kong") && stack[5] == Container("functions");
  }

  /** What it means that everything planned is there, kind by kind. */
  lemma CreatedExactly(c: Cluster, res: set<Resource>)
    requires Created(c, Plan(c.service.kind), res, |Plan(c.service.kind)|)
    ensures c.service.kind.Postgres? ==> Resource(c.id, Container(""), AccountName(c), c.slot) in res
    ensures c.service.kind.Supabase? ==>
              && Resource(c.id, Network, AccountName(c), c.slot) in res
              && forall suffix :: suffix in {"db", "rest", "auth", "kong", "functions"} ==>
                   Resource(c.id, Container(suffix), AccountName(c), c.slot) in res
  {
    var plan := Plan(c.service.kind);
    if c.service.kind.Postgres? {
      assert plan[0] == Container("");
    } else {
      assert plan[0] == Network && plan[1] == Container("db") && plan[2] == Container("rest") && plan[3] == Container("auth")
          && plan[4] == Container("kong") && plan[5] == Container("functions");
    }
  }

  /** The account first, then everything else. */
  method AssignAndProvision(deps: TaskDeps, c: Cluster, script: Script, ghost s: System)
    returns (end: SpawnEnd, updated: Cluster, ghost n: nat, ghost t: System)
    requires Matches(deps, s) && c.id in s.spawns && s.spawns[c.id] == Spawn(c, AtWorker)
    requires forall name :: script.create(name).failure.None? ==> script.create(name).effect
    modifies deps, deps.repository
    ensures Matches(deps, t) && Reaches(deps.cfg, script, s, c.id, t)
    ensures t.tokens == s.tokens && t.clock == s.clock
    ensures updated == c.(worker := updated.worker) && c.id in t.spawns && t.spawns[c.id].cluster == updated
    ensures end.Finished? ==> t.spawns[c.id].pc == AtRecheck(end.result)
    ensures end.Dropped? ==> script.dropAfter.Some? && InDoSpawn(t.spawns[c.id].pc)
    ensures n <= |ProvisionCalls(updated)|
    ensures || deps.calls == old(deps.calls)
            || deps.calls == old(deps.calls) + [StoreWorker(c.id)] + ProvisionCalls(updated)[..n]
    ensures end.Finished? && end.result.Connected? ==>
              && c.owner in deps.cfg.accounts && updated.worker == Some(deps.cfg.accounts[c.owner])
              && deps.calls == old(deps.calls) + [StoreWorker(c.id)] + ProvisionCalls(updated)
              && Created(updated, Plan(c.service.kind), deps.res, |Plan(c.service.kind)|)
              && end.result == script.result
  {
    updated := c;
    t := s;
    n := 0;
    if DropsAt(script, 0) {
      return Dropped, updated, n, t;
    }
    var failed;
    failed, updated, t := AssignWorker(deps, c, script, s);
    if failed.Some? {
      assert [StoreWorker(c.id)] + ProvisionCalls(updated)[..0] == [StoreWorker(c.id)];
      return Finished(failed.value), updated, n, t;
    }
    ghost var u := t;
    end, n, t := Provision(deps, updated, script, u);
    ReachOn(deps.cfg, script, s, c.id, u, t);
    assert ProvisionCalls(updated)[..|ProvisionCalls(updated)|] == ProvisionCalls(updated);
  }

  /** The work of a spawn, up to its outcome or to the moment the token fires. Whatever becomes of it, the
      calls made are the first so many of a fixed list; a spawn that connects has made them all, and has
      its container, or its network and then its five containers, in its directory. */
  method DoSpawn(deps: TaskDeps, c: Cluster, script: Script, ghost s: System)
    returns (end: SpawnEnd, updated: Cluster, ghost t: System)
    requires Matches(deps, s) && c.id in s.spawns && s.spawns[c.id] == Spawn(c, AtWorker)
    requires forall name :: script.create(name).failure.None? ==> script.create(name).effect
    modifies deps, deps.repository
    ensures Matches(deps, t) && Reaches(deps.cfg, script, s, c.id, t)
    ensures t.tokens == s.tokens && t.clock == s.clock
    ensures updated == c.(worker := updated.worker) && c.id in t.spawns && t.spawns[c.id].cluster == updated
    ensures end.Finished? ==> t.spawns[c.id].pc == AtRecheck(end.result)
    ensures end.Dropped? ==> script.dropAfter.Some? && InDoSpawn(t.spawns[c.id].pc)
    ensures || deps.calls == old(deps.calls)
            || exists n :: 0 <= n <= |ProvisionCalls(updated)|
                           && deps.calls == old(deps.calls) + [StoreWorker(c.id)] + ProvisionCalls(updated)[..n]
    ensures end.Finished? && end.result.Connected? ==>
              && end.result == script.result && c.owner in deps.cfg.accounts
              && var account := deps.cfg.accounts[c.owner].name;
              match c.service.kind
              case Postgres =>
                && deps.calls == old(deps.calls) + [StoreWorker(c.id)]
                                 + ([PrepareWorkerDir(account, c.slot, "")] + [CreateResource(c.id, Container(""))])
                && Resource(c.id, Container(""), account, c.slot) in deps.res
              case Supabase =>
                && deps.calls == old(deps.calls) + [StoreWorker(c.id)]
                                 + ([PrepareWorkerDir(account, c.slot, "project/functions"), AdoptStagedTree(account, c.slot)]
                                    + [CreateResource(c.id, Network), CreateResource(c.id, Container("db")),
                                       CreateResource(c.id, Container("rest")), CreateResource(c.id, Container("auth")),
                                       CreateResource(c.id, Container("kong")), CreateResource(c.id, Container("functions"))])
                && Resource(c.id, Network, account, c.slot) in deps.res
                && forall suffix :: suffix in {"db", "rest", "auth", "kong", "functions"} ==>
                     Resource(c.id, Container(suffix), account, c.slot) in deps.res
  {
    ghost var n;
    end, updated, n, t := AssignAndProvision(deps, c, script, s);
    if end.Finished? && end.result.Connected? {
      PrivilegedCallsExactly(updated);
      CreationsExactly(c.id);
      CreatedExactly(updated, deps.res);
      assert ProvisionCalls(updated)[..|ProvisionCalls(updated)|] == ProvisionCalls(updated);
    }
  }

  /** The whole task. If the token fires (which another task does, `fired` being the state in which
      it has) the work is dropped and torn down; if not, the outcome is concluded: a row still Spawning
      becomes Ready or Failed at that moment, a row gone or Deleting is torn down. Either way the task has
      made protocol moves only, and is about to leave the registry. */
  method Run(deps: TaskDeps, c: Cluster, script: Script, ghost s: System)
    returns (end: SpawnEnd, ghost fired: System, ghost t: System)
    requires Matches(deps, s) && c.id in s.spawns && s.spawns[c.id] == Spawn(c, AtWorker)
    requires script.concludedAt <= s.clock
    requires forall name :: script.create(name).failure.None? ==> script.create(name).effect
    modifies deps, deps.repository
    ensures Matches(deps, t) && c.id in t.spawns && t.spawns[c.id].pc == Finishing
    ensures Reaches(deps.cfg, script, s, c.id, if end.Dropped? then fired.(tokens := s.tokens) else fired)
    ensures Reaches(deps.cfg, script, fired, c.id, t)
    ensures end.Dropped? ==> script.dropAfter.Some? && fired.tokens == s.tokens[c.id := true]
    ensures end.Finished? && script.rechecked && script.persisted && c.id in fired.rows && fired.rows[c.id].state.Spawning? ==>
              t.rows == if end.result.Connected? then
                          fired.rows[c.id := fired.rows[c.id].(
                            state := Ready(script.concludedAt, script.concludedAt + c.requestedTtl, end.result.connection))]
                        else
                          fired.rows[c.id := fired.rows[c.id].(state := Failed(script.concludedAt, end.result.summary))]
  {
    var updated;
    end, updated, t := DoSpawn(deps, c, script, s);
    fired := t;
    match end {
      case Dropped =>
        fired := t.(tokens := s.tokens[c.id := true]);
        ReachMore(deps.cfg, script, fired, c.id, fired, Cancelled);
        t := Goto(fired, c.id, Tearing(TearBackend));
        t := TearItDown(deps, updated, script, fired, t);
      case Finished(result) =>
        t := Conclude(deps, updated, result, script, t);
    }
  }
}
