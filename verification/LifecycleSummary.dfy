/** What any one step can change, kind by kind; later arguments use these summaries instead of the
    definition of the step. */
module LifecycleSummary {
  import opened Domain
  import opened Lifecycle
  import opened LifecycleInvariant

  // ----- how a step may change one row -----

  /** Every change a step can make to row `id`, with what caused it. */
  ghost predicate Explained(s: System, step: Step, rows: map<ClusterId, Cluster>, id: ClusterId) {
    && (id in rows && id !in s.rows ==>
          step.Insert? && step.id == id && id !in s.issued && rows[id].state.Spawning?)
    && (id in s.rows && id !in rows ==>
          && s.rows[id].state.Deleting? && Removes(s, step, id)
          && (id in s.leaked || (!HasResources(s, id) && !HasHoldings(s, id))))
    && (id in s.rows && id in rows ==>
          var before := s.rows[id]; var after := rows[id];
          && SameCluster(before, after)
          && (after.worker == before.worker || (step.SpawnStep? && step.id == id && step.spawnMove.SetWorker? && Active(s, id)))
          && ( || after.state == before.state
               || (step.SpawnStep? && step.id == id && step.spawnMove.Persist? && Concludes(s, id, after.state))
               || WritesNext(s, step, id, after.state)
               || (s.phase.Reconciling? && before.state.Spawning? && after.state.Deleting? && after.state.reason == AdminForced)
               || (s.phase.Reconciling? && before.state.Ready? && after.state.Failed?)))
  }

  /** The last call of a teardown of `id`. */
  ghost predicate Removes(s: System, step: Step, id: ClusterId) {
    || (step.SpawnStep? && step.id == id && id in s.spawns && s.spawns[id].pc == Tearing(TearRow))
    || (step.TaskStep? && step.index < |s.tasks| && s.tasks[step.index].Teardown?
        && s.tasks[step.index].cluster.id == id && s.tasks[step.index].at == TearRow)
  }

  ghost predicate Concludes(s: System, id: ClusterId, after: ClusterState) {
    Active(s, id) && s.spawns[id].pc.AtPersist? && (after.Ready? || after.Failed?)
  }

  ghost predicate WritesNext(s: System, step: Step, id: ClusterId, after: ClusterState) {
    && step.TaskStep? && step.move == Write(true) && step.index < |s.tasks|
    && s.tasks[step.index].DeleteWrite?
    && s.tasks[step.index].cluster.id == id && after == s.tasks[step.index].next && after.Deleting?
  }

  lemma SpawnKeepsRows(cfg: Settings, s: System, c: ClusterId, m: SpawnMove)
    requires SpawnEnabled(s, c, m) && !m.SetWorker? && !m.Persist? && !m.SpawnTear?
    ensures ApplySpawn(cfg, s, c, m).rows == s.rows
  {
  }

  lemma SetWorkerRows(cfg: Settings, s: System, c: ClusterId, ok: bool)
    requires c in s.spawns
    ensures var rows := AfterSetWorker(cfg, s, c, ok).rows;
            rows == s.rows || (c in s.rows && exists w :: rows == s.rows[c := s.rows[c].(worker := w)])
  {
  }

  lemma SameStateExplained(s: System, step: Step, rows: map<ClusterId, Cluster>, id: ClusterId)
    requires id in rows <==> id in s.rows
    requires id in rows ==> SameCluster(s.rows[id], rows[id]) && rows[id].state == s.rows[id].state
    requires id in rows && rows[id].worker != s.rows[id].worker ==>
               step.SpawnStep? && step.id == id && step.spawnMove.SetWorker? && Active(s, id)
    ensures Explained(s, step, rows, id)
  {
  }

  lemma PersistExplained(s: System, c: ClusterId, at: Instant, ok: bool, id: ClusterId)
    requires c in s.spawns && s.spawns[c].pc.AtPersist?
    ensures Explained(s, SpawnStep(c, Persist(at, ok)), AfterPersist(s, c, at, ok).rows, id)
  {
  }

  lemma TearExplained(cfg: Settings, s: System, c: Cluster, at: TearPc, reply: TearReply, step: Step, id: ClusterId)
    requires Cleared(s, c.id, at) && RowDeleting(s, c.id) && (at == TearRow ==> Removes(s, step, c.id))
    ensures Explained(s, step, AfterTear(cfg, s, c, at, reply).rows, id)
  {
  }

  lemma SpawnExplained(cfg: Settings, s: System, c: ClusterId, m: SpawnMove, id: ClusterId)
    requires SpawnLocal(cfg, s, c) && SpawnEnabled(s, c, m)
    ensures Explained(s, SpawnStep(c, m), ApplySpawn(cfg, s, c, m).rows, id)
  {
    match m {
      case SetWorker(ok) =>
        SetWorkerRows(cfg, s, c, ok);
        SameStateExplained(s, SpawnStep(c, m), ApplySpawn(cfg, s, c, m).rows, id);
      case Persist(at, ok) => PersistExplained(s, c, at, ok, id);
      case SpawnTear(reply) =>
        TearExplained(cfg, s, s.spawns[c].cluster, s.spawns[c].pc.at, reply, SpawnStep(c, m), id);
      case _ =>
        SpawnKeepsRows(cfg, s, c, m);
        SameStateExplained(s, SpawnStep(c, m), s.rows, id);
    }
  }

  lemma TaskExplained(cfg: Settings, s: System, k: nat, m: TaskMove, id: ClusterId)
    requires TaskEnabled(s, k, m) && TaskOk(cfg, s, s.tasks[k])
    ensures Explained(s, TaskStep(k, m), ApplyTask(cfg, s, k, m).rows, id)
  {
    if m.TaskTear? {
      TearExplained(cfg, s, s.tasks[k].cluster, s.tasks[k].at, m.reply, TaskStep(k, m), id);
    }
  }

  lemma OtherExplained(cfg: Settings, s: System, step: Step, id: ClusterId)
    requires Enabled(cfg, s, step) && !step.SpawnStep? && !step.TaskStep? && PhaseOk(s)
    requires id in s.rows ==> id in s.issued
    ensures Explained(s, step, Apply(cfg, s, step).rows, id)
  {
    if !step.Insert? && !step.ReconTake? {
      SameStateExplained(s, step, s.rows, id);
    }
  }

  lemma StepExplained(cfg: Settings, s: System, step: Step, id: ClusterId)
    requires Inv(cfg, s) && Enabled(cfg, s, step)
    ensures Explained(s, step, Apply(cfg, s, step).rows, id)
  {
    match step {
      case SpawnStep(c, m) =>
        assert SpawnLocal(cfg, s, c) by {
          assert SpawnOk(cfg, s, c);
        }
        SpawnExplained(cfg, s, c, m, id);
      case TaskStep(k, m) =>
        assert TaskOk(cfg, s, s.tasks[k]);
        TaskExplained(cfg, s, k, m, id);
      case _ =>
        assert id in s.rows ==> RowOk(cfg, s, id);
        OtherExplained(cfg, s, step, id);
    }
  }

  // ----- how a step may change the task list -----

  /** What may become of the task that steps. */
  ghost predicate TaskBecomes(s: System, before: Task, move: TaskMove, after: Task) {
    || after.Done?
    || (before.DeleteCall? && after.DeleteWrite? && before.id in s.rows && after.cluster == s.rows[before.id])
    || (before.DeleteWrite? && move == Write(true) && after.Dispatch? && after.cluster.id == before.cluster.id
        && after.outcome == before.outcome && before.cluster.id in s.rows)
    || (before.Dispatch? && before.outcome.StartTeardown? && after.Teardown? && after.cluster == before.cluster)
    || (before.Teardown? && before.at != TearRow && after.Teardown? && after.cluster == before.cluster)
  }

  /** What a step may add to the task list. */
  ghost predicate TaskAdded(s: System, step: Step, added: Task) {
    || added.DeleteCall?
    || (added.Teardown? && step.ReconTake? && added.cluster.id == step.id && AllDone(s))
  }

  ghost predicate TasksExplained(s: System, step: Step, tasks: seq<Task>) {
    if step.Crash? then tasks == []
    else
      && |s.tasks| <= |tasks| <= |s.tasks| + 1
      && (forall i :: 0 <= i < |s.tasks| && !(step.TaskStep? && step.index == i) ==> tasks[i] == s.tasks[i])
      && (step.TaskStep? ==> step.index < |s.tasks| && TaskBecomes(s, s.tasks[step.index], step.move, tasks[step.index]))
      && (|s.tasks| < |tasks| ==> TaskAdded(s, step, tasks[|s.tasks|]))
  }

  lemma SpawnKeepsTasks(cfg: Settings, s: System, c: ClusterId, m: SpawnMove)
    requires SpawnEnabled(s, c, m)
    ensures ApplySpawn(cfg, s, c, m).tasks == s.tasks && ApplySpawn(cfg, s, c, m).phase == s.phase
  {
    if m.SpawnTear? {
      TearScope(cfg, s, s.spawns[c].cluster, s.spawns[c].pc.at, m.reply);
    }
  }

  lemma TaskStepExplained(cfg: Settings, s: System, k: nat, m: TaskMove)
    requires TaskEnabled(s, k, m)
    ensures TasksExplained(s, TaskStep(k, m), ApplyTask(cfg, s, k, m).tasks)
    ensures ApplyTask(cfg, s, k, m).phase == s.phase && ApplyTask(cfg, s, k, m).spawns == s.spawns
  {
    if m.TaskTear? {
      TearScope(cfg, s, s.tasks[k].cluster, s.tasks[k].at, m.reply);
    }
  }

  lemma StepTasks(cfg: Settings, s: System, step: Step)
    requires Inv(cfg, s) && Enabled(cfg, s, step)
    ensures TasksExplained(s, step, Apply(cfg, s, step).tasks)
  {
    match step {
      case SpawnStep(c, m) => SpawnKeepsTasks(cfg, s, c, m);
      case TaskStep(k, m) => TaskStepExplained(cfg, s, k, m);
      case ReconTake(id, at, liveness, ok) => assert RowOk(cfg, s, id);
      case _ =>
    }
  }

  // ----- spawn tasks, phase, history -----

  ghost predicate SpawnsExplained(s: System, step: Step, t: System) {
    && (forall id :: Active(t, id) ==> Active(s, id) || (step.Insert? && step.id == id && id !in s.issued))
    && (forall id :: id in t.spawns && id in s.spawns && s.spawns[id].pc.Tearing? ==>
          t.spawns[id].pc.Tearing? || t.spawns[id].pc.Finishing?)
    && (forall id :: id in t.spawns && id in s.spawns && !(step.SpawnStep? && step.id == id) ==>
          t.spawns[id] == s.spawns[id])
    && (forall id :: id in t.spawns && id !in s.spawns ==> t.spawns[id].pc.Launching?)
    && (forall id :: id in t.spawns && id in s.spawns && t.spawns[id].pc.AtPersist? ==>
          if step.SpawnStep? && step.id == id then step.spawnMove.Recheck? else t.spawns[id] == s.spawns[id])
    && (forall id :: id in s.spawns && id !in t.spawns ==>
          step.Crash? || (step.SpawnStep? && step.id == id && s.spawns[id].pc.Finishing?))
  }

  ghost predicate PhaseExplained(s: System, step: Step, t: System) {
    || (t.phase == s.phase && !step.Crash? && !step.ReconList? && !step.ReconTake? && !step.ReconDone?)
    || (step.Crash? && t.phase.Booting?)
    || (step.ReconList? && s.phase.Booting? && (t.phase == Reconciling(s.rows) || t.phase.Serving?))
    || (step.ReconTake? && s.phase.Reconciling? && step.id in s.phase.todo && AllDone(s)
        && t.phase == Reconciling(s.phase.todo - {step.id}))
    || (step.ReconDone? && s.phase.Reconciling? && s.phase.todo == map[] && AllDone(s) && t.phase.Serving?)
  }

  ghost predicate TearersExplained(s: System, step: Step, t: System) {
    || (t.tearers == s.tearers && !step.Crash?)
    || (step.Crash? && t.tearers == {})
    || (step.SpawnStep? && step.id in s.spawns && s.spawns[step.id].pc.Tearing?
        && t.tearers == s.tearers + {BySpawn(step.id)})
    || (step.TaskStep? && step.index < |s.tasks| && s.tasks[step.index].Teardown?
        && t.tearers == s.tearers + {ByTask(s.tasks[step.index].cluster.id, step.index)})
  }

  ghost predicate Summary(s: System, step: Step, t: System) {
    && (forall id :: Explained(s, step, t.rows, id))
    && TasksExplained(s, step, t.tasks)
    && SpawnsExplained(s, step, t)
    && PhaseExplained(s, step, t)
    && TearersExplained(s, step, t)
    && s.issued <= t.issued && s.clock <= t.clock
  }

  /** What becomes of the spawn task of `c`, and what it never touches. */
  ghost predicate SpawnBecomes(s: System, c: ClusterId, m: SpawnMove, t: System) {
    && c in s.spawns
    && t.issued == s.issued && t.clock == s.clock && t.phase == s.phase
    && ( || (s.spawns[c].pc.Finishing? && t.spawns == s.spawns - {c} && t.tearers == s.tearers)
         || ( && !s.spawns[c].pc.Finishing? && c in t.spawns && t.spawns == s.spawns[c := t.spawns[c]]
              && (s.spawns[c].pc.Tearing? ==> t.spawns[c].pc.Tearing? || t.spawns[c].pc.Finishing?)
              && (t.spawns[c].pc.AtPersist? ==> m.Recheck?)
              && (t.tearers == s.tearers || (s.spawns[c].pc.Tearing? && t.tearers == s.tearers + {BySpawn(c)}))))
  }

  lemma SpawnTearSummary(cfg: Settings, s: System, c: ClusterId, reply: TearReply)
    requires c in s.spawns && s.spawns[c].pc.Tearing?
    ensures SpawnBecomes(s, c, SpawnTear(reply), AfterSpawnTear(cfg, s, c, reply))
  {
    TearScope(cfg, s, s.spawns[c].cluster, s.spawns[c].pc.at, reply);
  }

  lemma SetWorkerSummary(cfg: Settings, s: System, c: ClusterId, ok: bool)
    requires c in s.spawns && s.spawns[c].pc.AtWorker?
    ensures SpawnBecomes(s, c, SetWorker(ok), AfterSetWorker(cfg, s, c, ok))
  {
  }

  lemma SpawnMoveSummary(cfg: Settings, s: System, c: ClusterId, m: SpawnMove)
    requires SpawnEnabled(s, c, m)
    ensures SpawnBecomes(s, c, m, ApplySpawn(cfg, s, c, m))
  {
    match m {
      case SpawnTear(reply) => SpawnTearSummary(cfg, s, c, reply);
      case SetWorker(ok) => SetWorkerSummary(cfg, s, c, ok);
      case _ =>
    }
  }

  lemma SpawnSummary(s: System, c: ClusterId, m: SpawnMove, t: System)
    requires SpawnBecomes(s, c, m, t)
    ensures SpawnsExplained(s, SpawnStep(c, m), t) && TearersExplained(s, SpawnStep(c, m), t)
  {
  }

  lemma TaskSummary(cfg: Settings, s: System, k: nat, m: TaskMove)
    requires TaskEnabled(s, k, m)
    ensures var t := ApplyTask(cfg, s, k, m);
            && t.issued == s.issued && t.clock == s.clock && t.phase == s.phase && t.spawns == s.spawns
            && TearersExplained(s, TaskStep(k, m), t)
  {
    if m.TaskTear? {
      TearScope(cfg, s, s.tasks[k].cluster, s.tasks[k].at, m.reply);
    }
  }

  lemma InsertSummary(cfg: Settings, s: System, step: Step)
    requires step.Insert? && Enabled(cfg, s, step)
    requires forall id :: id in s.spawns ==> id in s.issued
    ensures SpawnsExplained(s, step, Apply(cfg, s, step))
  {
  }

  lemma OtherSpawns(cfg: Settings, s: System, step: Step)
    requires Enabled(cfg, s, step) && !step.SpawnStep? && !step.TaskStep? && !step.Insert?
    ensures SpawnsExplained(s, step, Apply(cfg, s, step))
  {
    var t := Apply(cfg, s, step);
    assert if step.Crash? then t.spawns == map[] else t.spawns == s.spawns;
  }

  lemma OtherSummary(cfg: Settings, s: System, step: Step)
    requires Enabled(cfg, s, step) && !step.SpawnStep? && !step.TaskStep?
    ensures var t := Apply(cfg, s, step);
            && s.issued <= t.issued && s.clock <= t.clock
            && PhaseExplained(s, step, t) && TearersExplained(s, step, t)
  {
  }

  lemma StepSummary(cfg: Settings, s: System, step: Step)
    requires Inv(cfg, s) && Enabled(cfg, s, step)
    ensures Summary(s, step, Apply(cfg, s, step))
  {
    forall id ensures Explained(s, step, Apply(cfg, s, step).rows, id) {
      StepExplained(cfg, s, step, id);
    }
    forall id | id in s.spawns ensures id in s.issued {
      assert SpawnOk(cfg, s, id);
    }
    StepTasks(cfg, s, step);
    match step {
      case SpawnStep(c, m) =>
        SpawnMoveSummary(cfg, s, c, m);
        SpawnSummary(s, c, m, Apply(cfg, s, step));
      case TaskStep(k, m) => TaskSummary(cfg, s, k, m);
      case _ =>
        OtherSummary(cfg, s, step);
        if step.Insert? {
          InsertSummary(cfg, s, step);
        } else {
          OtherSpawns(cfg, s, step);
        }
    }
  }
}
