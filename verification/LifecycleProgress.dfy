/** Left to themselves the tasks finish, and when they have finished nothing is half done. */
module LifecycleProgress {
  import opened Domain
  import opened Lifecycle
  import opened LifecycleInvariant
  import opened LifecycleSummary
  import opened LifecycleOneTearer

  // ----- a measure of the work left -----

  function TearWork(at: TearPc): nat {
    match at
    case TearBackend => 3
    case TearWipe => 2
    case TearRow => 1
  }

  function SpawnWork(pc: SpawnPc): nat {
    match pc
    case Launching => 17
    case AtWorker => 16
    case AtPrepare(left) => 13 + left
    case AtBackend(plan) => 6 + |plan|
    case AtRecheck(_) => 5
    case AtPersist(_, _) => 2
    case Tearing(at) => 1 + TearWork(at)
    case Finishing => 1
  }

  function TaskWork(t: Task): nat {
    match t
    case Done => 0
    case Teardown(_, at) => TearWork(at)
    case Dispatch(_, _, _) => 4
    case DeleteWrite(_, _, _, _) => 5
    case DeleteCall(_, _, _, _) => 6
  }

  function SeqWork(tasks: seq<Task>): nat {
    if tasks == [] then 0 else SeqWork(tasks[..|tasks| - 1]) + TaskWork(tasks[|tasks| - 1])
  }

  ghost function MapWork(spawns: map<ClusterId, Spawn>): nat
    decreases |spawns|
  {
    if spawns == map[] then 0
    else
      var id :| id in spawns;
      assert |spawns - {id}| < |spawns| by { assert (spawns - {id}).Keys == spawns.Keys - {id}; }
      SpawnWork(spawns[id].pc) + MapWork(spawns - {id})
  }

  ghost function PhaseWork(s: System): nat {
    match s.phase
    case Booting => 2 + 4 * |s.rows|
    case Reconciling(todo) => 1 + 4 * |todo|
    case Serving => 0
  }

  ghost function Work(s: System): nat {
    MapWork(s.spawns) + SeqWork(s.tasks) + PhaseWork(s)
  }

  lemma {:induction false} SeqWorkUpdate(tasks: seq<Task>, i: nat, t: Task)
    requires i < |tasks|
    ensures SeqWork(tasks[i := t]) + TaskWork(tasks[i]) == SeqWork(tasks) + TaskWork(t)
  {
    var n := |tasks| - 1;
    if i == n {
      assert tasks[i := t][..n] == tasks[..n];
    } else {
      SeqWorkUpdate(tasks[..n], i, t);
      assert tasks[i := t][..n] == tasks[..n][i := t];
    }
  }

  lemma {:induction false} MapWorkRemove(spawns: map<ClusterId, Spawn>, id: ClusterId)
    requires id in spawns
    ensures MapWork(spawns) == SpawnWork(spawns[id].pc) + MapWork(spawns - {id})
    decreases |spawns|
  {
    var d :| d in spawns && MapWork(spawns) == SpawnWork(spawns[d].pc) + MapWork(spawns - {d});
    if d == id {
    } else {
      assert (spawns - {d}).Keys == spawns.Keys - {d};
      assert (spawns - {id}).Keys == spawns.Keys - {id};
      MapWorkRemove(spawns - {d}, id);
      assert spawns - {d} - {id} == spawns - {id} - {d};
      MapWorkRemove(spawns - {id}, d);
    }
  }

  lemma MapWorkUpdate(spawns: map<ClusterId, Spawn>, id: ClusterId, sp: Spawn)
    requires id in spawns
    ensures MapWork(spawns[id := sp]) + SpawnWork(spawns[id].pc) == MapWork(spawns) + SpawnWork(sp.pc)
  {
    MapWorkRemove(spawns, id);
    MapWorkRemove(spawns[id := sp], id);
    assert spawns[id := sp] - {id} == spawns - {id};
  }

  // ----- every internal step uses up some of it -----

  predicate Internal(step: Step) {
    step.SpawnStep? || step.TaskStep? || step.ReconList? || step.ReconTake? || step.ReconDone?
  }

  ghost predicate SpawnShrinks(s: System, c: ClusterId, t: System) {
    && c in s.spawns && t.tasks == s.tasks && t.phase == s.phase
    && ( || t.spawns == s.spawns - {c}
         || ( && c in t.spawns && t.spawns == s.spawns[c := t.spawns[c]]
              && SpawnWork(t.spawns[c].pc) < SpawnWork(s.spawns[c].pc)))
  }

  lemma SpawnTearShrinks(cfg: Settings, s: System, c: ClusterId, reply: TearReply)
    requires c in s.spawns && s.spawns[c].pc.Tearing?
    ensures SpawnShrinks(s, c, AfterSpawnTear(cfg, s, c, reply))
  {
    TearScope(cfg, s, s.spawns[c].cluster, s.spawns[c].pc.at, reply);
  }

  lemma SetWorkerShrinks(cfg: Settings, s: System, c: ClusterId, ok: bool)
    requires c in s.spawns && s.spawns[c].pc.AtWorker?
    ensures SpawnShrinks(s, c, AfterSetWorker(cfg, s, c, ok))
  {
  }

  lemma SpawnMoveShrinks(cfg: Settings, s: System, c: ClusterId, m: SpawnMove)
    requires SpawnEnabled(s, c, m)
    ensures SpawnShrinks(s, c, ApplySpawn(cfg, s, c, m))
  {
    match m {
      case SpawnTear(reply) => SpawnTearShrinks(cfg, s, c, reply);
      case SetWorker(ok) => SetWorkerShrinks(cfg, s, c, ok);
      case _ =>
    }
  }

  lemma TaskMoveShrinks(cfg: Settings, s: System, k: nat, m: TaskMove)
    requires TaskEnabled(s, k, m)
    ensures var t := ApplyTask(cfg, s, k, m);
            && |t.tasks| == |s.tasks| && t.tasks == s.tasks[k := t.tasks[k]]
            && t.spawns == s.spawns && t.phase == s.phase
            && TaskWork(t.tasks[k]) < TaskWork(s.tasks[k])
  {
    if m.TaskTear? {
      TearScope(cfg, s, s.tasks[k].cluster, s.tasks[k].at, m.reply);
    }
  }

  lemma ReconTakeShape(cfg: Settings, s: System, id: ClusterId, at: Instant, liveness: Liveness, ok: bool)
    requires s.phase.Reconciling? && id in s.phase.todo
    ensures var t := AfterReconTake(cfg, s, id, at, liveness, ok);
            && t.spawns == s.spawns && t.phase == Reconciling(s.phase.todo - {id})
            && (t.tasks == s.tasks || exists c :: t.tasks == s.tasks + [Teardown(c, TearBackend)])
  {
  }

  lemma ReconTakeShrinks(s: System, id: ClusterId, t: System)
    requires s.phase.Reconciling? && id in s.phase.todo
    requires t.spawns == s.spawns && t.phase == Reconciling(s.phase.todo - {id})
    requires t.tasks == s.tasks || exists c :: t.tasks == s.tasks + [Teardown(c, TearBackend)]
    ensures Work(t) < Work(s)
  {
  }

  /** Every step a task or the startup pass takes, failed calls included, leaves less work. */
  lemma InternalShrinks(cfg: Settings, s: System, step: Step)
    requires Inv(cfg, s) && Enabled(cfg, s, step) && Internal(step)
    ensures Work(Apply(cfg, s, step)) < Work(s)
  {
    var t := Apply(cfg, s, step);
    assert s.phase.Booting? ==> s.spawns == map[] && s.tasks == [];
    match step {
      case SpawnStep(c, m) =>
        SpawnMoveShrinks(cfg, s, c, m);
        MapWorkRemove(s.spawns, c);
        if c in t.spawns {
          MapWorkUpdate(s.spawns, c, t.spawns[c]);
        }
      case TaskStep(k, m) =>
        TaskMoveShrinks(cfg, s, k, m);
        SeqWorkUpdate(s.tasks, k, t.tasks[k]);
      case ReconTake(id, at, liveness, ok) =>
        ReconTakeShape(cfg, s, id, at, liveness, ok);
        ReconTakeShrinks(s, id, t);
      case _ =>
    }
  }

  // ----- nothing is forgotten, as long as the repository answers -----

  /** No repository call of this step fails. Container, executor and probe calls may. */
  predicate Reliable(s: System, step: Step) {
    match step
    case SpawnStep(id, m) =>
      && (m.SetWorker? ==> m.ok) && (m.Recheck? ==> m.ok) && (m.Persist? ==> m.ok)
      && (m.SpawnTear? && id in s.spawns && s.spawns[id].pc == Tearing(TearRow) ==> m.reply.ok)
    case TaskStep(i, m) =>
      && (m.Read? ==> m.ok) && (m.Write? ==> m.ok)
      && (m.TaskTear? && i < |s.tasks| && s.tasks[i].Teardown? && s.tasks[i].at == TearRow ==> m.reply.ok)
    case ReconList(ok) => ok
    case ReconTake(_, _, _, ok) => ok
    case _ => true
  }

  ghost predicate ReliableRun(ss: seq<System>, steps: seq<Step>) {
    |ss| == |steps| + 1 && forall k :: 0 <= k < |steps| ==> Reliable(ss[k], steps[k])
  }

  ghost predicate Claimed(s: System, id: ClusterId) {
    exists i :: 0 <= i < |s.tasks| && Claims(s.tasks[i], id)
  }

  /** Another entry of the task list than the `i`-th is committed to the same teardown. */
  ghost predicate ClaimedByOther(s: System, i: nat)
    requires i < |s.tasks| && s.tasks[i].Teardown?
  {
    exists j :: 0 <= j < |s.tasks| && j != i && Claims(s.tasks[j], s.tasks[i].cluster.id)
  }

  predicate HalfWay(row: Cluster) {
    row.state.Spawning? || row.state.Deleting?
  }

  /** A failed call of the one task that answers for a row half way: the final write of a spawn, the
      removal of a row at the end of a teardown, the listing at startup, and the marking of a row that
      was Spawning when the process died. Every other failed call leaves its row in somebody's hands. */
  ghost predicate Abandons(s: System, step: Step) {
    match step
    case SpawnStep(id, m) =>
      || (m.Persist? && !m.ok)
      || (m.SpawnTear? && !m.reply.ok && id in s.spawns && s.spawns[id].pc == Tearing(TearRow) && id in s.rows)
    case TaskStep(i, m) =>
      && m.TaskTear? && !m.reply.ok && i < |s.tasks| && s.tasks[i].Teardown? && s.tasks[i].at == TearRow
      && s.tasks[i].cluster.id in s.rows && !ClaimedByOther(s, i)
    case ReconList(ok) => !ok && exists id :: id in s.rows && HalfWay(s.rows[id])
    case ReconTake(id, _, _, ok) => !ok && id in s.rows && s.rows[id].state.Spawning?
    case _ => false
  }

  /** Some task is responsible for every row that is half way up or half way down. */
  ghost predicate RowCovered(s: System, id: ClusterId) {
    id in s.rows ==>
      match s.phase
      case Booting => true
      case Reconciling(todo) =>
        s.rows[id].state.Spawning? || s.rows[id].state.Deleting? ==> id in todo || Claimed(s, id)
      case Serving =>
        && (s.rows[id].state.Spawning? ==> Active(s, id))
        && (s.rows[id].state.Deleting? ==> Active(s, id) || Claimed(s, id))
  }

  ghost predicate Covered(s: System) {
    forall id :: RowCovered(s, id)
  }

  /** What a step that abandons nothing leaves behind when the responsible task moves on. */
  ghost predicate Settles(s: System, step: Step, t: System) {
    && (step.SpawnStep? && Active(s, step.id) && !Active(t, step.id) && step.id in t.rows ==>
          t.rows[step.id].state.Ready? || t.rows[step.id].state.Failed?)
    && (step.TaskStep? && step.index < |s.tasks| && s.tasks[step.index].Teardown? ==>
          |t.tasks| == |s.tasks|
          && (t.tasks[step.index].Done? ==> s.tasks[step.index].cluster.id !in t.rows || ClaimedByOther(s, step.index)))
    && (WritesBack(s, step) ==>
          |t.tasks| == |s.tasks| && t.tasks[step.index].Dispatch?)
    && (step.TaskStep? && step.index < |s.tasks| && s.tasks[step.index].Dispatch? && s.tasks[step.index].outcome.StartTeardown? ==>
          |t.tasks| == |s.tasks| && t.tasks[step.index].Teardown?)
    && (step.ReconTake? && step.id in s.rows && (s.rows[step.id].state.Spawning? || s.rows[step.id].state.Deleting?) ==>
          |t.tasks| == |s.tasks| + 1 && Claims(t.tasks[|s.tasks|], step.id))
  }

  lemma SpawnSettles(cfg: Settings, s: System, c: ClusterId, m: SpawnMove)
    requires SpawnOk(cfg, s, c) && SpawnEnabled(s, c, m) && !Abandons(s, SpawnStep(c, m))
    ensures Settles(s, SpawnStep(c, m), ApplySpawn(cfg, s, c, m))
  {
    match m {
      case Persist(at, ok) =>
      case SpawnTear(reply) => TearScope(cfg, s, s.spawns[c].cluster, s.spawns[c].pc.at, reply);
      case SetWorker(ok) => SetWorkerSummary(cfg, s, c, ok);
      case _ =>
    }
  }

  lemma TaskSettles(cfg: Settings, s: System, k: nat, m: TaskMove)
    requires TaskEnabled(s, k, m) && !Abandons(s, TaskStep(k, m))
    ensures Settles(s, TaskStep(k, m), ApplyTask(cfg, s, k, m))
  {
    if m.TaskTear? {
      TearScope(cfg, s, s.tasks[k].cluster, s.tasks[k].at, m.reply);
    }
  }

  lemma ReconSettles(cfg: Settings, s: System, id: ClusterId, at: Instant, liveness: Liveness, ok: bool)
    requires PhaseOk(s) && s.phase.Reconciling? && id in s.phase.todo && s.rows[id].id == id
    requires !Abandons(s, ReconTake(id, at, liveness, ok))
    ensures Settles(s, ReconTake(id, at, liveness, ok), AfterReconTake(cfg, s, id, at, liveness, ok))
  {
  }

  lemma StepSettles(cfg: Settings, s: System, step: Step)
    requires Inv(cfg, s) && Enabled(cfg, s, step) && !Abandons(s, step)
    ensures Settles(s, step, Apply(cfg, s, step))
  {
    match step {
      case SpawnStep(c, m) =>
        assert SpawnOk(cfg, s, c);
        SpawnSettles(cfg, s, c, m);
      case TaskStep(k, m) => TaskSettles(cfg, s, k, m);
      case ReconTake(id, at, liveness, ok) =>
        assert RowOk(cfg, s, id);
        ReconSettles(cfg, s, id, at, liveness, ok);
      case _ =>
    }
  }

  lemma ClaimStays(s: System, step: Step, t: System, id: ClusterId)
    requires Summary(s, step, t) && Settles(s, step, t) && step != Crash && Claimed(s, id) && id in t.rows
    ensures Claimed(t, id)
  {
    var i :| 0 <= i < |s.tasks| && Claims(s.tasks[i], id);
    if !Claims(t.tasks[i], id) {
      var j :| 0 <= j < |s.tasks| && j != i && Claims(s.tasks[j], id);
      assert Claims(t.tasks[j], id);
    }
  }

  /** A write-back that leaves the teardown to others, to a row that nobody works on any more. */
  predicate Forgets(s: System, step: Step) {
    && WritesBack(s, step) && !s.tasks[step.index].outcome.StartTeardown?
    && (RowWritten(s, step).state.Ready? || RowWritten(s, step).state.Failed?)
  }

  /** In service: a row already Deleting keeps its responsible task, or stops being Deleting. */
  lemma ServingCovered(cfg: Settings, s: System, step: Step, t: System, id: ClusterId)
    requires Inv(cfg, s) && Covered(s) && Summary(s, step, t) && Settles(s, step, t)
    requires !Forgets(s, step)
    requires s.phase.Serving? && step != Crash
    requires step.Insert? ==> Active(t, step.id)
    ensures RowCovered(t, id)
  {
    assert RowCovered(s, id) && Explained(s, step, t.rows, id);
    if id in t.rows {
      if Claimed(s, id) {
        ClaimStays(s, step, t, id);
      }
      if id in s.rows && t.rows[id].state != s.rows[id].state && t.rows[id].state.Deleting? {
        WriteCovered(s, step, t, id);
      }
    }
  }

  lemma WriteCovered(s: System, step: Step, t: System, id: ClusterId)
    requires RowCovered(s, id) && Summary(s, step, t) && Settles(s, step, t)
    requires !Forgets(s, step)
    requires s.phase.Serving? && id in s.rows && id in t.rows
    requires t.rows[id].state != s.rows[id].state && t.rows[id].state.Deleting?
    ensures Active(t, id) || Claimed(t, id)
  {
    assert Explained(s, step, t.rows, id);
    assert WritesNext(s, step, id, t.rows[id].state);
    var k := step.index;
    if s.tasks[k].outcome.StartTeardown? {
      assert Claims(t.tasks[k], id);
    } else if Claimed(s, id) {
      ClaimStays(s, step, t, id);
    }
  }

  /** During startup: every row half way is still on the list or being torn down. */
  lemma StartupCovered(cfg: Settings, s: System, step: Step, t: System, id: ClusterId)
    requires Inv(cfg, s) && Covered(s) && Summary(s, step, t) && Settles(s, step, t)
    requires !s.phase.Serving? && step != Crash && !step.Insert?
    requires step.ReconList? && !t.phase.Reconciling? ==> t.rows == s.rows && !Abandons(s, step) && !step.ok
    ensures RowCovered(t, id)
  {
    assert RowCovered(s, id) && Explained(s, step, t.rows, id);
    if id in t.rows && Claimed(s, id) {
      ClaimStays(s, step, t, id);
    }
    if step.ReconTake? && id == step.id && |t.tasks| == |s.tasks| + 1 {
      assert Claims(t.tasks[|s.tasks|], id) ==> Claimed(t, id);
    }
  }

  lemma CoveredKeeps(cfg: Settings, s: System, step: Step)
    requires Inv(cfg, s) && Covered(s) && Enabled(cfg, s, step) && !Forgets(s, step) && !Abandons(s, step)
    ensures Covered(Apply(cfg, s, step))
  {
    var t := Apply(cfg, s, step);
    if step != Crash {
      StepSummary(cfg, s, step);
      StepSettles(cfg, s, step);
      forall id ensures RowCovered(t, id) {
        if s.phase.Serving? {
          ServingCovered(cfg, s, step, t, id);
        } else {
          StartupCovered(cfg, s, step, t, id);
        }
      }
    }
  }

  ghost predicate NeverForgets(ss: seq<System>, steps: seq<Step>) {
    |ss| == |steps| + 1 && forall k :: 0 <= k < |steps| ==> !Forgets(ss[k], steps[k])
  }

  ghost predicate NeverAbandons(ss: seq<System>, steps: seq<Step>) {
    |ss| == |steps| + 1 && forall k :: 0 <= k < |steps| ==> !Abandons(ss[k], steps[k])
  }

  lemma ReliableNeverAbandons(ss: seq<System>, steps: seq<Step>)
    requires ReliableRun(ss, steps)
    ensures NeverAbandons(ss, steps)
  {
    forall k | 0 <= k < |steps| ensures !Abandons(ss[k], steps[k]) {
      assert Reliable(ss[k], steps[k]);
    }
  }

  lemma {:induction false} RunCovered(cfg: Settings, ss: seq<System>, steps: seq<Step>, k: nat)
    requires Run(cfg, ss, steps) && NeverAbandons(ss, steps) && NeverForgets(ss, steps) && k < |ss|
    ensures Inv(cfg, ss[k]) && Covered(ss[k])
  {
    RunInv(cfg, ss, steps, k);
    if k == 0 {
    } else {
      RunCovered(cfg, ss, steps, k - 1);
      CoveredKeeps(cfg, ss[k - 1], steps[k - 1]);
      assert ss[k - 1 + 1] == Apply(cfg, ss[k - 1], steps[k - 1]);
    }
  }

  /** A write-back of what the row still says forgets nothing. */
  lemma CurrentNeverForgets(cfg: Settings, s: System, step: Step)
    requires Inv(cfg, s) && WritesCurrent(s)
    ensures !Forgets(s, step)
  {
    if WritesBack(s, step) {
      assert TaskOk(cfg, s, s.tasks[step.index]) && Current(s, s.tasks[step.index].cluster);
    }
  }

  lemma AtomicNeverForgets(cfg: Settings, ss: seq<System>, steps: seq<Step>)
    requires Run(cfg, ss, steps) && AtomicDeletes(ss, steps)
    ensures NeverForgets(ss, steps)
  {
    forall k | 0 <= k < |steps| ensures !Forgets(ss[k], steps[k]) {
      RunOneTearer(cfg, ss, steps, k);
      CurrentNeverForgets(cfg, ss[k], steps[k]);
    }
  }

  // ----- quiescence -----

  /** In service with no task left to run. */
  ghost predicate Idle(s: System) {
    s.phase.Serving? && s.spawns == map[] && AllDone(s)
  }

  /** If no write-back forgets its row and no failed call abandons one, nothing is half way when the
      tasks have run out. */
  lemma NothingForgottenMeansSettled(cfg: Settings, ss: seq<System>, steps: seq<Step>, k: nat, id: ClusterId)
    requires Run(cfg, ss, steps) && NeverAbandons(ss, steps) && NeverForgets(ss, steps) && k < |ss|
    requires Idle(ss[k]) && id in ss[k].rows
    ensures ss[k].rows[id].state.Ready? || ss[k].rows[id].state.Failed?
  {
    RunCovered(cfg, ss, steps, k);
    assert RowCovered(ss[k], id);
  }

  /** When the tasks have run out, no row is Spawning and no row is Deleting: every accepted
      deletion has run to the removal of its row. */
  lemma QuietMeansSettled(cfg: Settings, ss: seq<System>, steps: seq<Step>, k: nat, id: ClusterId)
    requires Run(cfg, ss, steps) && AtomicDeletes(ss, steps) && ReliableRun(ss, steps) && k < |ss|
    requires Idle(ss[k]) && id in ss[k].rows
    ensures ss[k].rows[id].state.Ready? || ss[k].rows[id].state.Failed?
  {
    AtomicNeverForgets(cfg, ss, steps);
    ReliableNeverAbandons(ss, steps);
    NothingForgottenMeansSettled(cfg, ss, steps, k, id);
  }

  const SUCCESS := TearReply(true, {}, {})

  /** A call with which the spawn task of `id` goes on, everything succeeding. */
  function NextSpawnMove(s: System, id: ClusterId): SpawnMove
    requires id in s.spawns
  {
    match s.spawns[id].pc
    case Launching => Launch
    case AtWorker => SetWorker(true)
    case AtPrepare(_) => Prepare(None, true)
    case AtBackend(plan) => if plan == [] then BackendReturns(SpawnError("gave up")) else Create(None, true)
    case AtRecheck(_) => Recheck(true)
    case AtPersist(_, _) => Persist(s.clock, true)
    case Tearing(_) => SpawnTear(SUCCESS)
    case Finishing => Unregister
  }

  function NextTaskMove(s: System, i: nat): TaskMove
    requires i < |s.tasks|
  {
    match s.tasks[i]
    case DeleteCall(_, _, _, _) => Read(s.clock, true)
    case DeleteWrite(_, _, _, _) => Write(true)
    case Dispatch(_, _, _) => Act
    case _ => TaskTear(SUCCESS)
  }

  /** A step that a task or the startup pass can take next, respecting delete requests in progress. */
  ghost predicate CanStep(cfg: Settings, s: System, step: Step) {
    Internal(step) && Enabled(cfg, s, step) && Reliable(s, step) && AtomicDelete(s, step)
  }

  lemma TaskCanStep(cfg: Settings, s: System, i: nat) returns (step: Step)
    requires OneTearerInv(s) && i < |s.tasks| && !s.tasks[i].Done?
    ensures CanStep(cfg, s, step)
  {
    var id := TaskId(s.tasks[i]).value;
    if d :| 0 <= d < |s.tasks| && s.tasks[d].DeleteWrite? && s.tasks[d].cluster.id == id {
      step := TaskStep(d, Write(true));
    } else {
      step := TaskStep(i, NextTaskMove(s, i));
    }
  }

  lemma SpawnCanStep(cfg: Settings, s: System, id: ClusterId) returns (step: Step)
    requires OneTearerInv(s) && id in s.spawns
    ensures CanStep(cfg, s, step)
  {
    if d :| 0 <= d < |s.tasks| && s.tasks[d].DeleteWrite? && s.tasks[d].cluster.id == id {
      step := TaskStep(d, Write(true));
    } else {
      step := SpawnStep(id, NextSpawnMove(s, id));
    }
  }

  /** A system that is not idle has a task that can go on. */
  lemma NeverStuck(cfg: Settings, s: System) returns (step: Step)
    requires Inv(cfg, s) && OneTearerInv(s) && !Idle(s)
    ensures CanStep(cfg, s, step)
  {
    if i :| 0 <= i < |s.tasks| && !s.tasks[i].Done? {
      step := TaskCanStep(cfg, s, i);
    } else if id :| id in s.spawns {
      step := SpawnCanStep(cfg, s, id);
    } else if s.phase.Booting? {
      step := ReconList(true);
    } else {
      assert s.phase.Reconciling?;
      if id :| id in s.phase.todo {
        step := ReconTake(id, s.clock, Alive, true);
      } else {
        assert s.phase.todo == map[];
        step := ReconDone;
      }
    }
  }

  lemma DrainStep(cfg: Settings, s: System) returns (step: Step, t: System)
    requires Inv(cfg, s) && OneTearerInv(s) && Covered(s) && !Idle(s)
    ensures CanStep(cfg, s, step) && t == Apply(cfg, s, step)
    ensures Inv(cfg, t) && OneTearerInv(t) && Covered(t) && Work(t) < Work(s)
  {
    step := NeverStuck(cfg, s);
    t := Apply(cfg, s, step);
    InternalShrinks(cfg, s, step);
    StepKeeps(cfg, s, step);
    OneTearerKeeps(cfg, s, step);
    CurrentNeverForgets(cfg, s, step);
    CoveredKeeps(cfg, s, step);
  }

  /** A schedule of internal steps of a live repository. */
  ghost predicate Drain(cfg: Settings, ss: seq<System>, steps: seq<Step>) {
    && |ss| == |steps| + 1
    && forall k :: 0 <= k < |steps| ==> CanStep(cfg, ss[k], steps[k]) && ss[k + 1] == Apply(cfg, ss[k], steps[k])
  }

  lemma DrainCons(cfg: Settings, s: System, step: Step, ss: seq<System>, steps: seq<Step>)
    requires CanStep(cfg, s, step) && Drain(cfg, ss, steps) && ss[0] == Apply(cfg, s, step)
    ensures Drain(cfg, [s] + ss, [step] + steps)
  {
  }

  /** From any state a run can reach, letting the tasks go on ends, after no more steps than the
      measure says, in an idle state; and idle states hold Ready and Failed rows only. */
  lemma {:induction false} Drains(cfg: Settings, s: System) returns (ss: seq<System>, steps: seq<Step>)
    requires Inv(cfg, s) && OneTearerInv(s) && Covered(s)
    ensures Drain(cfg, ss, steps) && ss[0] == s && |steps| <= Work(s)
    ensures Idle(ss[|steps|])
    ensures forall id :: id in ss[|steps|].rows ==>
              ss[|steps|].rows[id].state.Ready? || ss[|steps|].rows[id].state.Failed?
    decreases Work(s)
  {
    if Idle(s) {
      ss, steps := [s], [];
      forall id | id in s.rows ensures s.rows[id].state.Ready? || s.rows[id].state.Failed? {
        assert RowCovered(s, id);
      }
    } else {
      var step, t := DrainStep(cfg, s);
      var ss', steps' := Drains(cfg, t);
      DrainCons(cfg, s, step, ss', steps');
      ss, steps := [s] + ss', [step] + steps';
      assert ss[|steps|] == ss'[|steps'|];
    }
  }

  /** No schedule of internal steps, with whatever faults, is longer than the measure. */
  lemma {:induction false} InternalRunsEnd(cfg: Settings, ss: seq<System>, steps: seq<Step>)
    requires |ss| == |steps| + 1 && Inv(cfg, ss[0])
    requires forall k :: 0 <= k < |steps| ==>
               Internal(steps[k]) && Enabled(cfg, ss[k], steps[k]) && ss[k + 1] == Apply(cfg, ss[k], steps[k])
    ensures |steps| <= Work(ss[0])
    decreases |steps|
  {
    if |steps| == 0 {
    } else {
      InternalShrinks(cfg, ss[0], steps[0]);
      StepKeeps(cfg, ss[0], steps[0]);
      assert ss[0 + 1] == Apply(cfg, ss[0], steps[0]);
      var ss', steps' := ss[1..], steps[1..];
      forall k | 0 <= k < |steps'|
        ensures Internal(steps'[k]) && Enabled(cfg, ss'[k], steps'[k]) && ss'[k + 1] == Apply(cfg, ss'[k], steps'[k])
      {
        assert steps'[k] == steps[k + 1] && ss'[k] == ss[k + 1] && ss'[k + 1] == ss[k + 1 + 1];
      }
      InternalRunsEnd(cfg, ss', steps');
    }
  }
}
