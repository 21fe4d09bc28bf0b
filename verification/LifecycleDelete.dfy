/** An accepted delete is never lost, provided a delete request and the conclusion of a spawn task
    are each atomic with respect to other steps on their cluster; and exactly what goes wrong
    when they are not. */
module LifecycleDelete {
  import opened Domain
  import opened Lifecycle
  import opened LifecycleInvariant
  import opened LifecycleSummary
  import opened LifecycleOneTearer
  import opened LifecycleProgress

  /** The spawn task's re-check succeeds, and between it and the write of the conclusion only that
      task steps on the cluster. */
  ghost predicate AtomicConclusion(s: System, step: Step) {
    && (forall id :: id in s.spawns && s.spawns[id].pc.AtPersist? && StepOn(s, step) == Some(id) ==> step.SpawnStep?)
    && (step.SpawnStep? && step.spawnMove.Recheck? ==> step.spawnMove.ok)
  }

  ghost predicate AtomicConclusions(ss: seq<System>, steps: seq<Step>) {
    |ss| == |steps| + 1 && forall k :: 0 <= k < |steps| ==> AtomicConclusion(ss[k], steps[k])
  }

  /** What the re-check saw is what the row still says. */
  ghost predicate SeenIsCurrent(s: System) {
    forall id :: id in s.spawns && s.spawns[id].pc.AtPersist? ==>
      id in s.rows && s.rows[id].state == s.spawns[id].pc.seen
  }

  lemma RecheckSees(s: System, c: ClusterId)
    requires c in s.spawns && s.spawns[c].pc.AtRecheck?
    ensures var t := AfterRecheck(s, c, true);
            t.spawns[c].pc.AtPersist? ==> c in t.rows && t.rows[c].state == t.spawns[c].pc.seen
  {
  }

  lemma SeenStaysCurrent(cfg: Settings, s: System, step: Step)
    requires Inv(cfg, s) && SeenIsCurrent(s) && Enabled(cfg, s, step) && AtomicConclusion(s, step)
    ensures SeenIsCurrent(Apply(cfg, s, step))
  {
    var t := Apply(cfg, s, step);
    StepSummary(cfg, s, step);
    if step.SpawnStep? && step.spawnMove.Recheck? {
      RecheckSees(s, step.id);
      assert t == AfterRecheck(s, step.id, true);
    }
    SeenFrame(cfg, s, step, t);
  }

  lemma SeenFrame(cfg: Settings, s: System, step: Step, t: System)
    requires Inv(cfg, s) && SeenIsCurrent(s) && Summary(s, step, t) && AtomicConclusion(s, step)
    requires step.SpawnStep? && step.spawnMove.Recheck? && step.id in t.spawns && t.spawns[step.id].pc.AtPersist? ==>
               step.id in t.rows && t.rows[step.id].state == t.spawns[step.id].pc.seen
    ensures SeenIsCurrent(t)
  {
    forall id | id in t.spawns && t.spawns[id].pc.AtPersist?
      ensures id in t.rows && t.rows[id].state == t.spawns[id].pc.seen
    {
      assert Explained(s, step, t.rows, id);
      if id in s.spawns && !(step.SpawnStep? && step.id == id) {
        assert SpawnOk(cfg, s, id);
      }
    }
  }

  function StateOf(s: System, id: ClusterId): Option<ClusterState> {
    if id in s.rows then Some(s.rows[id].state) else None
  }

  /** Weakly up the order Spawning, Ready, Failed, Deleting, gone; and Deleting does not change. */
  ghost predicate Upward(s: System, t: System, id: ClusterId) {
    && Rank(StateOf(s, id)) <= Rank(StateOf(t, id))
    && (id in s.rows && s.rows[id].state.Deleting? && id in t.rows ==> t.rows[id].state == s.rows[id].state)
  }

  lemma StepGoesUp(cfg: Settings, s: System, step: Step, t: System, id: ClusterId)
    requires Inv(cfg, s) && WritesCurrent(s) && SeenIsCurrent(s) && Summary(s, step, t) && id in s.issued
    ensures Upward(s, t, id)
  {
    assert Explained(s, step, t.rows, id);
    if step.TaskStep? && step.index < |s.tasks| && s.tasks[step.index].DeleteWrite? {
      assert TaskOk(cfg, s, s.tasks[step.index]) && Current(s, s.tasks[step.index].cluster);
    }
    assert id in s.spawns ==> SpawnOk(cfg, s, id);
  }

  lemma {:induction false} RunCurrent(cfg: Settings, ss: seq<System>, steps: seq<Step>, k: nat)
    requires Run(cfg, ss, steps) && AtomicDeletes(ss, steps) && AtomicConclusions(ss, steps) && k < |ss|
    ensures Inv(cfg, ss[k]) && OneTearerInv(ss[k]) && SeenIsCurrent(ss[k])
  {
    RunOneTearer(cfg, ss, steps, k);
    if k == 0 {
    } else {
      RunCurrent(cfg, ss, steps, k - 1);
      SeenStaysCurrent(cfg, ss[k - 1], steps[k - 1]);
      assert ss[k - 1 + 1] == Apply(cfg, ss[k - 1], steps[k - 1]);
    }
  }

  lemma RunStepGoesUp(cfg: Settings, ss: seq<System>, steps: seq<Step>, k: nat, id: ClusterId)
    requires Run(cfg, ss, steps) && AtomicDeletes(ss, steps) && AtomicConclusions(ss, steps) && k < |steps|
    requires id in ss[k].issued
    ensures Upward(ss[k], ss[k + 1], id) && id in ss[k + 1].issued
  {
    RunCurrent(cfg, ss, steps, k);
    StepSummary(cfg, ss[k], steps[k]);
    assert ss[k + 1] == Apply(cfg, ss[k], steps[k]);
    StepGoesUp(cfg, ss[k], steps[k], ss[k + 1], id);
  }

  /** Along every run a row only moves up the order Spawning, Ready, Failed, Deleting, gone. */
  lemma {:induction false} RowsOnlyGoUp(cfg: Settings, ss: seq<System>, steps: seq<Step>, j: nat, k: nat, id: ClusterId)
    requires Run(cfg, ss, steps) && AtomicDeletes(ss, steps) && AtomicConclusions(ss, steps)
    requires j <= k < |ss| && id in ss[j].issued
    ensures Rank(StateOf(ss[j], id)) <= Rank(StateOf(ss[k], id)) && id in ss[k].issued
    decreases k
  {
    if j == k {
    } else {
      RowsOnlyGoUp(cfg, ss, steps, j, k - 1, id);
      RunStepGoesUp(cfg, ss, steps, k - 1, id);
    }
  }

  /** Once a delete has been written, the row keeps saying so, with the same time and reason, until
      it disappears; and then it stays away. */
  lemma {:induction false} AcceptedDeleteStays(cfg: Settings, ss: seq<System>, steps: seq<Step>, j: nat, k: nat, id: ClusterId)
    requires Run(cfg, ss, steps) && AtomicDeletes(ss, steps) && AtomicConclusions(ss, steps)
    requires j <= k < |ss| && id in ss[j].rows && ss[j].rows[id].state.Deleting?
    ensures id in ss[k].rows ==> ss[k].rows[id].state == ss[j].rows[id].state
    ensures id in ss[k].issued
    decreases k
  {
    RunCurrent(cfg, ss, steps, j);
    assert RowOk(cfg, ss[j], id);
    if j == k {
    } else {
      AcceptedDeleteStays(cfg, ss, steps, j, k - 1, id);
      RunStepGoesUp(cfg, ss, steps, k - 1, id);
    }
  }

  /** Every accepted delete has removed its row by the time the tasks have run out. */
  lemma AcceptedDeleteHappens(cfg: Settings, ss: seq<System>, steps: seq<Step>, j: nat, k: nat, id: ClusterId)
    requires Run(cfg, ss, steps) && AtomicDeletes(ss, steps) && AtomicConclusions(ss, steps) && ReliableRun(ss, steps)
    requires j <= k < |ss| && id in ss[j].rows && ss[j].rows[id].state.Deleting? && Idle(ss[k])
    ensures id !in ss[k].rows
  {
    AcceptedDeleteStays(cfg, ss, steps, j, k, id);
    if id in ss[k].rows {
      QuietMeansSettled(cfg, ss, steps, k, id);
    }
  }
}
