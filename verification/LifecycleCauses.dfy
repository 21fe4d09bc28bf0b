/** Why a row is Deleting, and what a crash leaves: every delete found in a run goes back to a request of the
    owner, to a sweep that found the cluster due, or to a startup pass that found it half way. */
module LifecycleCauses {
  import opened Domain
  import opened Lifecycle
  import opened LifecycleInvariant
  import opened LifecycleSummary
  import opened LifecycleProgress
  import opened LifecycleOutcome

  /** Before state `k` of the run something happened to cluster `id` that accounts for `reason`. */
  ghost predicate Caused(cfg: Settings, ss: seq<System>, steps: seq<Step>, k: nat, id: ClusterId, owner: ClientId,
                         reason: DeleteReason)
    requires k <= |steps| && |ss| == |steps| + 1
  {
    match reason
    case UserRequested => exists j :: 0 <= j < k && steps[j] == DeleteArrives(id, owner)
    case TtlExpired =>
      exists j :: && 0 <= j < k && steps[j].ReaperSees? && steps[j].id == id && id in ss[j].rows
                  && ss[j].rows[id].state.Ready? && steps[j].now >= ss[j].rows[id].state.decommissionAt
    case SpawnFailed =>
      exists j :: && 0 <= j < k && steps[j].ReaperSees? && steps[j].id == id && id in ss[j].rows
                  && ss[j].rows[id].state.Failed? && steps[j].now >= ss[j].rows[id].state.failedAt + cfg.failedGrace
    case AdminForced =>
      exists j :: && 0 <= j < k && steps[j].ReconTake? && steps[j].id == id && id in ss[j].rows
                  && ss[j].rows[id].state.Spawning?
  }

  ghost predicate StateCaused(cfg: Settings, ss: seq<System>, steps: seq<Step>, k: nat, c: Cluster, state: ClusterState)
    requires k <= |steps| && |ss| == |steps| + 1
  {
    state.Deleting? ==> Caused(cfg, ss, steps, k, c.id, c.owner, state.reason)
  }

  ghost predicate TaskCaused(cfg: Settings, ss: seq<System>, steps: seq<Step>, k: nat, t: Task)
    requires k <= |steps| && |ss| == |steps| + 1
  {
    match t
    case DeleteCall(id, owner, reason, _) => Caused(cfg, ss, steps, k, id, owner, reason)
    case DeleteWrite(c, next, _, _) => StateCaused(cfg, ss, steps, k, c, next)
    case _ => true
  }

  ghost predicate AllCaused(cfg: Settings, ss: seq<System>, steps: seq<Step>, k: nat)
    requires k <= |steps| && |ss| == |steps| + 1
  {
    && (forall id :: id in ss[k].rows ==> StateCaused(cfg, ss, steps, k, ss[k].rows[id], ss[k].rows[id].state))
    && (forall i :: 0 <= i < |ss[k].tasks| ==> TaskCaused(cfg, ss, steps, k, ss[k].tasks[i]))
  }

  lemma CauseStays(cfg: Settings, ss: seq<System>, steps: seq<Step>, k: nat, id: ClusterId, owner: ClientId, reason: DeleteReason)
    requires k < |steps| && |ss| == |steps| + 1 && Caused(cfg, ss, steps, k, id, owner, reason)
    ensures Caused(cfg, ss, steps, k + 1, id, owner, reason)
  {
  }

  lemma TaskCauseStays(cfg: Settings, ss: seq<System>, steps: seq<Step>, k: nat, t: Task)
    requires k < |steps| && |ss| == |steps| + 1 && TaskCaused(cfg, ss, steps, k, t)
    ensures TaskCaused(cfg, ss, steps, k + 1, t)
  {
    match t {
      case DeleteCall(id, owner, reason, _) => CauseStays(cfg, ss, steps, k, id, owner, reason);
      case DeleteWrite(c, next, _, _) =>
        if next.Deleting? {
          CauseStays(cfg, ss, steps, k, c.id, c.owner, next.reason);
        }
      case _ =>
    }
  }

  /** A delete request, or a decision of the reaper, is its own cause. */
  lemma ArrivalCaused(cfg: Settings, ss: seq<System>, steps: seq<Step>, k: nat)
    requires k < |steps| && |ss| == |steps| + 1 && Enabled(cfg, ss[k], steps[k])
    requires steps[k].DeleteArrives? || steps[k].ReaperSees?
    ensures var t := Apply(cfg, ss[k], steps[k]);
            |t.tasks| == |ss[k].tasks| + 1 && TaskCaused(cfg, ss, steps, k + 1, t.tasks[|ss[k].tasks|])
  {
  }

  lemma ReadCaused(cfg: Settings, ss: seq<System>, steps: seq<Step>, k: nat, i: nat, at: Instant, ok: bool)
    requires k < |steps| && |ss| == |steps| + 1 && Inv(cfg, ss[k]) && AllCaused(cfg, ss, steps, k)
    requires TaskEnabled(ss[k], i, Read(at, ok))
    ensures TaskCaused(cfg, ss, steps, k + 1, AfterRead(ss[k], i, at, ok).tasks[i])
  {
    var s := ss[k];
    var t := s.tasks[i];
    TaskCauseStays(cfg, ss, steps, k, t);
    if t.id in s.rows {
      assert RowOk(cfg, s, t.id) && StateCaused(cfg, ss, steps, k, s.rows[t.id], s.rows[t.id].state);
      if s.rows[t.id].state.Deleting? {
        CauseStays(cfg, ss, steps, k, t.id, s.rows[t.id].owner, s.rows[t.id].state.reason);
      }
    }
  }

  lemma TaskStaysCaused(cfg: Settings, ss: seq<System>, steps: seq<Step>, k: nat, i: nat)
    requires Run(cfg, ss, steps) && k < |steps| && Inv(cfg, ss[k]) && AllCaused(cfg, ss, steps, k)
    requires i < |ss[k + 1].tasks|
    ensures TaskCaused(cfg, ss, steps, k + 1, ss[k + 1].tasks[i])
  {
    var s, step, t := ss[k], steps[k], ss[k + 1];
    RunStep(cfg, ss, steps, k);
    StepSummary(cfg, s, step);
    if i < |s.tasks| && step.TaskStep? && step.index == i {
      if step.move.Read? {
        ReadCaused(cfg, ss, steps, k, i, step.move.at, step.move.ok);
      } else {
        assert TaskBecomes(s, s.tasks[i], step.move, t.tasks[i]);
      }
    } else if i < |s.tasks| {
      assert TaskCaused(cfg, ss, steps, k, s.tasks[i]);
      TaskCauseStays(cfg, ss, steps, k, s.tasks[i]);
    } else if step.DeleteArrives? || step.ReaperSees? {
      ArrivalCaused(cfg, ss, steps, k);
    } else {
      NoOtherArrivals(cfg, s, step);
    }
  }

  /** Nothing else adds a request to the task list. */
  lemma NoOtherArrivals(cfg: Settings, s: System, step: Step)
    requires Enabled(cfg, s, step) && !step.DeleteArrives? && !step.ReaperSees?
    ensures var t := Apply(cfg, s, step);
            |t.tasks| <= |s.tasks| || (|t.tasks| == |s.tasks| + 1 && t.tasks[|s.tasks|].Teardown?)
  {
    match step {
      case SpawnStep(c, m) => SpawnKeepsTasks(cfg, s, c, m);
      case TaskStep(i, m) => TaskMoveShrinks(cfg, s, i, m);
      case _ =>
    }
  }

  /** Only the startup pass deletes a row by itself, and only the one it has taken. */
  lemma OnlyTheTakenChange(cfg: Settings, s: System, step: Step, id: ClusterId)
    requires Inv(cfg, s) && Enabled(cfg, s, step) && !step.SpawnStep? && !step.TaskStep? && id in s.rows
    ensures var rows := Apply(cfg, s, step).rows;
            id in rows && rows[id].state.Deleting? && rows[id].state != s.rows[id].state ==>
              step.ReconTake? && step.id == id && s.rows[id].state.Spawning? && rows[id].state.reason == AdminForced
  {
    assert RowOk(cfg, s, id);
  }

  lemma WriteCaused(cfg: Settings, ss: seq<System>, steps: seq<Step>, k: nat, i: nat, row: Cluster)
    requires k < |steps| && |ss| == |steps| + 1 && Inv(cfg, ss[k]) && AllCaused(cfg, ss, steps, k)
    requires i < |ss[k].tasks| && ss[k].tasks[i].DeleteWrite? && ss[k].tasks[i].cluster.id == row.id && row.id in ss[k].rows
    requires row.owner == ss[k].rows[row.id].owner && row.state == ss[k].tasks[i].next
    ensures StateCaused(cfg, ss, steps, k + 1, row, row.state)
  {
    var t := ss[k].tasks[i];
    assert TaskOk(cfg, ss[k], t) && TaskCaused(cfg, ss, steps, k, t);
    TaskCauseStays(cfg, ss, steps, k, t);
  }

  lemma TakenCaused(cfg: Settings, ss: seq<System>, steps: seq<Step>, k: nat, row: Cluster)
    requires k < |steps| && |ss| == |steps| + 1 && row.id in ss[k].rows
    requires steps[k].ReconTake? && steps[k].id == row.id && ss[k].rows[row.id].state.Spawning?
    requires row.state.Deleting? ==> row.state.reason == AdminForced
    ensures StateCaused(cfg, ss, steps, k + 1, row, row.state)
  {
  }

  lemma RowStaysCaused(cfg: Settings, ss: seq<System>, steps: seq<Step>, k: nat, id: ClusterId)
    requires Run(cfg, ss, steps) && k < |steps| && Inv(cfg, ss[k]) && AllCaused(cfg, ss, steps, k)
    requires id in ss[k + 1].rows && ss[k + 1].rows[id].state.Deleting?
    ensures StateCaused(cfg, ss, steps, k + 1, ss[k + 1].rows[id], ss[k + 1].rows[id].state)
  {
    var s, step, after := ss[k], steps[k], ss[k + 1].rows[id];
    RunStep(cfg, ss, steps, k);
    StepExplained(cfg, s, step, id);
    assert id in s.rows && RowOk(cfg, s, id) && StateCaused(cfg, ss, steps, k, s.rows[id], s.rows[id].state);
    assert after.id == id by {
      StepKeeps(cfg, s, step);
      assert RowOk(cfg, ss[k + 1], id);
    }
    if after.state == s.rows[id].state {
      CauseStays(cfg, ss, steps, k, id, after.owner, after.state.reason);
    } else if WritesNext(s, step, id, after.state) {
      WriteCaused(cfg, ss, steps, k, step.index, after);
    } else {
      OnlyTheTakenChange(cfg, s, step, id);
      TakenCaused(cfg, ss, steps, k, after);
    }
  }

  lemma {:induction false} RunCaused(cfg: Settings, ss: seq<System>, steps: seq<Step>, k: nat)
    requires Run(cfg, ss, steps) && k < |ss|
    ensures Inv(cfg, ss[k]) && AllCaused(cfg, ss, steps, k)
  {
    RunInv(cfg, ss, steps, k);
    if k == 0 {
    } else {
      RunCaused(cfg, ss, steps, k - 1);
      forall id | id in ss[k].rows ensures StateCaused(cfg, ss, steps, k, ss[k].rows[id], ss[k].rows[id].state) {
        if ss[k].rows[id].state.Deleting? {
          RowStaysCaused(cfg, ss, steps, k - 1, id);
        }
      }
      forall i | 0 <= i < |ss[k].tasks| ensures TaskCaused(cfg, ss, steps, k, ss[k].tasks[i]) {
        TaskStaysCaused(cfg, ss, steps, k - 1, i);
      }
    }
  }

  /** Nobody but its owner, the reaper once it was due, or a startup pass that found it Spawning ever has a
      cluster deleted: in every state of every run, crashes and faults included, the reason recorded in a
      Deleting row goes back to such an event. */
  lemma DeletesHaveCauses(cfg: Settings, ss: seq<System>, steps: seq<Step>, k: nat, id: ClusterId)
    requires Run(cfg, ss, steps) && k < |ss| && id in ss[k].rows && ss[k].rows[id].state.Deleting?
    ensures var row := ss[k].rows[id];
            match row.state.reason
            case UserRequested => exists j :: 0 <= j < k && steps[j] == DeleteArrives(id, row.owner)
            case TtlExpired =>
              exists j :: && 0 <= j < k && steps[j].ReaperSees? && steps[j].id == id && id in ss[j].rows
                          && ss[j].rows[id].state.Ready? && steps[j].now >= ss[j].rows[id].state.decommissionAt
            case SpawnFailed =>
              exists j :: && 0 <= j < k && steps[j].ReaperSees? && steps[j].id == id && id in ss[j].rows
                          && ss[j].rows[id].state.Failed? && steps[j].now >= ss[j].rows[id].state.failedAt + cfg.failedGrace
            case AdminForced =>
              exists j :: && 0 <= j < k && steps[j].ReconTake? && steps[j].id == id && id in ss[j].rows
                          && ss[j].rows[id].state.Spawning?
  {
    RunCaused(cfg, ss, steps, k);
    assert RowOk(cfg, ss[k], id) && StateCaused(cfg, ss, steps, k, ss[k].rows[id], ss[k].rows[id].state);
  }

  // ----- what a crash leaves -----

  /** A restart after a crash at any point finds every row, resource and directory as they were and puts every
      row on its list; nothing of the tasks and tokens is left. If the rows cannot be listed it serves anyway. */
  lemma RestartFindsEverything(cfg: Settings, s: System, ok: bool)
    ensures Enabled(cfg, s, Crash) && Enabled(cfg, Apply(cfg, s, Crash), ReconList(ok))
    ensures var t := Apply(cfg, Apply(cfg, s, Crash), ReconList(ok));
            && t.rows == s.rows && t.res == s.res && t.dirs == s.dirs
            && t.issued == s.issued && t.leaked == s.leaked && t.clock == s.clock
            && t.spawns == map[] && t.tokens == map[] && t.tasks == []
            && (if ok then t.phase == Reconciling(s.rows) else t.phase == Serving)
  {
  }

  /** A container writes into the directory it is mounted on, whoever that belongs to by then. */
  lemma MountedWritesLand(cfg: Settings, s: System, r: Resource)
    requires r in s.res && r.name.Container?
    ensures Enabled(cfg, s, MountWrites(r))
    ensures var t := Apply(cfg, s, MountWrites(r));
            && Holding(r.account, r.slot, r.id) in t.dirs && s.dirs <= t.dirs && t.rows == s.rows && t.res == s.res
  {
  }
}
