/** What becomes of a delete in the end: who has torn the cluster down by the time its row is gone, and
    that a decision of the reaper is carried out. */
module LifecycleOutcome {
  import opened Domain
  import opened Lifecycle
  import opened LifecycleInvariant
  import opened LifecycleSummary
  import opened LifecycleOneTearer
  import opened LifecycleProgress
  import opened LifecycleDelete
  import opened LifecycleExact

  // ----- a teardown is on record -----

  ghost predicate SpawnRecorded(s: System, id: ClusterId) {
    id in s.spawns && s.spawns[id].pc.Tearing? && s.spawns[id].pc.at != TearBackend ==> BySpawn(id) in s.tearers
  }

  ghost predicate TaskRecorded(s: System, i: nat) {
    i < |s.tasks| && s.tasks[i].Teardown? && s.tasks[i].at != TearBackend ==> ByTask(s.tasks[i].cluster.id, i) in s.tearers
  }

  /** Every teardown past its first call is in the history. */
  ghost predicate Recorded(s: System) {
    (forall id :: SpawnRecorded(s, id)) && (forall i :: TaskRecorded(s, i))
  }

  lemma SpawnStepRecorded(cfg: Settings, s: System, c: ClusterId, m: SpawnMove)
    requires SpawnEnabled(s, c, m) && SpawnRecorded(s, c)
    ensures SpawnRecorded(ApplySpawn(cfg, s, c, m), c) && s.tearers <= ApplySpawn(cfg, s, c, m).tearers
  {
    if m.SpawnTear? {
      TearScope(cfg, s, s.spawns[c].cluster, s.spawns[c].pc.at, m.reply);
    }
  }

  lemma TaskStepRecorded(cfg: Settings, s: System, i: nat, m: TaskMove)
    requires TaskEnabled(s, i, m) && TaskRecorded(s, i)
    ensures TaskRecorded(ApplyTask(cfg, s, i, m), i) && s.tearers <= ApplyTask(cfg, s, i, m).tearers
  {
    if m.TaskTear? {
      TearScope(cfg, s, s.tasks[i].cluster, s.tasks[i].at, m.reply);
    }
  }

  lemma OtherStepRecorded(cfg: Settings, s: System, step: Step, i: nat)
    requires Enabled(cfg, s, step) && step != Crash && !step.SpawnStep? && !step.TaskStep? && TaskRecorded(s, i)
    ensures TaskRecorded(Apply(cfg, s, step), i) && s.tearers == Apply(cfg, s, step).tearers
  {
  }

  lemma OtherSpawnRecorded(s: System, step: Step, t: System, id: ClusterId)
    requires SpawnsExplained(s, step, t) && SpawnRecorded(s, id) && s.tearers <= t.tearers
    requires !(step.SpawnStep? && step.id == id)
    ensures SpawnRecorded(t, id)
  {
  }

  lemma SpawnStepKeepsRecord(cfg: Settings, s: System, c: ClusterId, m: SpawnMove)
    requires Inv(cfg, s) && Recorded(s) && SpawnEnabled(s, c, m)
    ensures Recorded(ApplySpawn(cfg, s, c, m)) && s.tearers <= ApplySpawn(cfg, s, c, m).tearers
  {
    var t := ApplySpawn(cfg, s, c, m);
    SpawnStepRecorded(cfg, s, c, m);
    SpawnMoveSummary(cfg, s, c, m);
    SpawnSummary(s, c, m, t);
    SpawnKeepsTasks(cfg, s, c, m);
    forall id ensures SpawnRecorded(t, id) {
      if id != c {
        OtherSpawnRecorded(s, SpawnStep(c, m), t, id);
      }
    }
    forall i ensures TaskRecorded(t, i) {
      assert TaskRecorded(s, i);
    }
  }

  lemma TaskStepKeepsRecord(cfg: Settings, s: System, k: nat, m: TaskMove)
    requires Recorded(s) && TaskEnabled(s, k, m)
    ensures Recorded(ApplyTask(cfg, s, k, m)) && s.tearers <= ApplyTask(cfg, s, k, m).tearers
  {
    var t := ApplyTask(cfg, s, k, m);
    TaskStepRecorded(cfg, s, k, m);
    TaskStepExplained(cfg, s, k, m);
    TaskMoveShrinks(cfg, s, k, m);
    forall id ensures SpawnRecorded(t, id) {
      assert SpawnRecorded(s, id);
    }
    forall i ensures TaskRecorded(t, i) {
      assert TaskRecorded(s, i);
    }
  }

  lemma OtherStepKeepsRecord(cfg: Settings, s: System, step: Step)
    requires Inv(cfg, s) && Recorded(s) && Enabled(cfg, s, step) && step != Crash && !step.SpawnStep? && !step.TaskStep?
    ensures Recorded(Apply(cfg, s, step)) && s.tearers == Apply(cfg, s, step).tearers
  {
    var t := Apply(cfg, s, step);
    StepSummary(cfg, s, step);
    OtherStepRecorded(cfg, s, step, 0);
    forall id ensures SpawnRecorded(t, id) {
      OtherSpawnRecorded(s, step, t, id);
    }
    forall i ensures TaskRecorded(t, i) {
      OtherStepRecorded(cfg, s, step, i);
    }
  }

  lemma RecordedStays(cfg: Settings, s: System, step: Step)
    requires Inv(cfg, s) && Recorded(s) && Enabled(cfg, s, step)
    ensures Recorded(Apply(cfg, s, step))
    ensures step != Crash ==> s.tearers <= Apply(cfg, s, step).tearers
  {
    match step {
      case Crash =>
      case SpawnStep(c, m) => SpawnStepKeepsRecord(cfg, s, c, m);
      case TaskStep(k, m) => TaskStepKeepsRecord(cfg, s, k, m);
      case _ => OtherStepKeepsRecord(cfg, s, step);
    }
  }

  lemma {:induction false} RunRecorded(cfg: Settings, ss: seq<System>, steps: seq<Step>, k: nat)
    requires Run(cfg, ss, steps) && k < |ss|
    ensures Inv(cfg, ss[k]) && Recorded(ss[k])
  {
    RunInv(cfg, ss, steps, k);
    if k == 0 {
    } else {
      RunRecorded(cfg, ss, steps, k - 1);
      RecordedStays(cfg, ss[k - 1], steps[k - 1]);
      assert ss[k - 1 + 1] == Apply(cfg, ss[k - 1], steps[k - 1]);
    }
  }

  ghost predicate HasTearer(s: System, id: ClusterId) {
    exists e :: e in s.tearers && e.id == id
  }

  lemma RemoverIsRecorded(s: System, step: Step, id: ClusterId)
    requires Recorded(s) && Removes(s, step, id)
    ensures HasTearer(s, id)
  {
    if step.SpawnStep? {
      assert SpawnRecorded(s, id);
      assert BySpawn(id) in s.tearers;
    } else {
      assert TaskRecorded(s, step.index);
      assert ByTask(id, step.index) in s.tearers;
    }
  }

  /** A row is removed by a teardown that is on record, and the record outlives it. */
  lemma RemovalIsRecorded(cfg: Settings, s: System, step: Step, id: ClusterId)
    requires Inv(cfg, s) && Recorded(s) && Enabled(cfg, s, step) && step != Crash
    requires HasTearer(s, id) || (id in s.rows && id !in Apply(cfg, s, step).rows)
    ensures HasTearer(Apply(cfg, s, step), id)
  {
    RecordedStays(cfg, s, step);
    if id in s.rows && id !in Apply(cfg, s, step).rows {
      StepExplained(cfg, s, step, id);
      RemoverIsRecorded(s, step, id);
    }
    var e :| e in s.tearers && e.id == id;
    assert e in Apply(cfg, s, step).tearers;
  }

  ghost predicate NoCrash(steps: seq<Step>, j: nat, k: nat)
    requires k <= |steps|
  {
    forall m :: j <= m < k ==> steps[m] != Crash
  }

  /** Unless the process dies in between, a row that has disappeared has been torn down by somebody. */
  lemma {:induction false} GoneMeansTorn(cfg: Settings, ss: seq<System>, steps: seq<Step>, j: nat, k: nat, id: ClusterId)
    requires Run(cfg, ss, steps) && j <= k < |ss| && NoCrash(steps, j, k)
    requires id in ss[j].rows && id !in ss[k].rows
    ensures HasTearer(ss[k], id)
    decreases k
  {
    if j == k {
    } else {
      if id !in ss[k - 1].rows {
        GoneMeansTorn(cfg, ss, steps, j, k - 1, id);
      }
      RunRemoval(cfg, ss, steps, k, id);
    }
  }

  /** What `RemovalIsRecorded` says, at moment `k` of a run. */
  lemma RunRemoval(cfg: Settings, ss: seq<System>, steps: seq<Step>, k: nat, id: ClusterId)
    requires Run(cfg, ss, steps) && 0 < k < |ss| && steps[k - 1] != Crash
    requires HasTearer(ss[k - 1], id) || (id in ss[k - 1].rows && id !in ss[k].rows)
    ensures HasTearer(ss[k], id)
  {
    RunRecorded(cfg, ss, steps, k - 1);
    RunStep(cfg, ss, steps, k - 1);
    RemovalIsRecorded(cfg, ss[k - 1], steps[k - 1], id);
  }

  lemma RunStep(cfg: Settings, ss: seq<System>, steps: seq<Step>, k: nat)
    requires Run(cfg, ss, steps) && k < |steps|
    ensures Enabled(cfg, ss[k], steps[k]) && ss[k + 1] == Apply(cfg, ss[k], steps[k])
  {
  }

  // ----- exactly one task carries an accepted delete out -----

  /** While every row half way is attended, a row that is Deleting stays so until it is gone. */
  lemma AttendedStaysDeleting(cfg: Settings, s: System, step: Step, id: ClusterId)
    requires Inv(cfg, s) && NonePastRecheck(s) && Enabled(cfg, s, step) && id in s.issued && RowDeleting(s, id)
    ensures RowDeleting(Apply(cfg, s, step), id) && id in Apply(cfg, s, step).issued
  {
    StepSummary(cfg, s, step);
    assert Explained(s, step, Apply(cfg, s, step).rows, id);
    assert id in s.spawns ==> SpawnOk(cfg, s, id);
  }

  lemma {:induction false} AcceptedStaysDeleting(cfg: Settings, ss: seq<System>, steps: seq<Step>, j: nat, k: nat, id: ClusterId)
    requires Run(cfg, ss, steps) && NeverStrays(ss, steps) && j <= k < |ss|
    requires id in ss[j].rows && ss[j].rows[id].state.Deleting?
    ensures RowDeleting(ss[k], id) && id in ss[k].issued
    decreases k
  {
    if j == k {
      RunInv(cfg, ss, steps, k);
      assert RowOk(cfg, ss[k], id);
    } else {
      AcceptedStaysDeleting(cfg, ss, steps, j, k - 1, id);
      RunStaysDeleting(cfg, ss, steps, k - 1, id);
    }
  }

  lemma RunStaysDeleting(cfg: Settings, ss: seq<System>, steps: seq<Step>, k: nat, id: ClusterId)
    requires Run(cfg, ss, steps) && NeverStrays(ss, steps) && k < |steps| && id in ss[k].issued && RowDeleting(ss[k], id)
    ensures RowDeleting(ss[k + 1], id) && id in ss[k + 1].issued
  {
    RunStep(cfg, ss, steps, k);
    RunAttended(cfg, ss, steps, k);
    AttendedStaysDeleting(cfg, ss[k], steps[k], id);
  }

  lemma RunAttended(cfg: Settings, ss: seq<System>, steps: seq<Step>, k: nat)
    requires Run(cfg, ss, steps) && NeverStrays(ss, steps) && k < |ss|
    ensures Inv(cfg, ss[k]) && OneForEach(ss[k])
  {
    RunInv(cfg, ss, steps, k);
    RunExactlyOne(cfg, ss, steps, k);
  }

  /** In a run in which no step strays, an accepted delete has removed its row by the time the tasks have
      run out, and, if the process has not died since, exactly one task has torn the cluster down. */
  lemma ExactlyOneTearsDown(cfg: Settings, ss: seq<System>, steps: seq<Step>, j: nat, k: nat, id: ClusterId)
    requires Run(cfg, ss, steps) && NeverStrays(ss, steps) && j <= k < |ss|
    requires id in ss[j].rows && ss[j].rows[id].state.Deleting? && Idle(ss[k])
    ensures id !in ss[k].rows
    ensures NoCrash(steps, j, k) ==>
              exists e :: e in ss[k].tearers && e.id == id && forall f :: f in ss[k].tearers && f.id == id ==> f == e
  {
    AcceptedStaysDeleting(cfg, ss, steps, j, k, id);
    RunAttended(cfg, ss, steps, k);
    assert RowCovered(ss[k], id);
    if NoCrash(steps, j, k) {
      GoneMeansTorn(cfg, ss, steps, j, k, id);
      var e :| e in ss[k].tearers && e.id == id;
      StraysCoverLate(ss, steps);
      forall f | f in ss[k].tearers && f.id == id ensures f == e {
        OneTearerUnlessLate(cfg, ss, steps, k, f, e);
      }
    }
  }

  lemma StraysCoverLate(ss: seq<System>, steps: seq<Step>)
    requires NeverStrays(ss, steps)
    ensures NeverLate(ss, steps)
  {
    forall k | 0 <= k < |steps| ensures !StartsLate(ss[k], steps[k]) {
      assert !Strays(ss[k], steps[k]);
    }
  }

  /** The law in the words of the two hypotheses: with atomic delete requests, atomic conclusions and a
      repository that answers, exactly one task tears down each cluster whose delete was accepted. */
  lemma BothMeanExactlyOneTearsDown(cfg: Settings, ss: seq<System>, steps: seq<Step>, j: nat, k: nat, id: ClusterId)
    requires Run(cfg, ss, steps) && AtomicDeletes(ss, steps) && AtomicConclusions(ss, steps) && ReliableRun(ss, steps)
    requires j <= k < |ss| && id in ss[j].rows && ss[j].rows[id].state.Deleting? && Idle(ss[k]) && NoCrash(steps, j, k)
    ensures id !in ss[k].rows
    ensures exists e :: e in ss[k].tearers && e.id == id && forall f :: f in ss[k].tearers && f.id == id ==> f == e
  {
    AtomicNeverStrays(cfg, ss, steps);
    ExactlyOneTearsDown(cfg, ss, steps, j, k, id);
  }

  // ----- a decision of the reaper is carried out -----

  /** The `i`-th task is on its way to marking row `id` Deleting. */
  predicate OnItsWay(s: System, i: nat, id: ClusterId) {
    && i < |s.tasks| && id in s.rows
    && ( || (s.tasks[i].DeleteCall? && s.tasks[i].id == id && s.tasks[i].owner == s.rows[id].owner)
         || (s.tasks[i].DeleteWrite? && s.tasks[i].cluster.id == id))
  }

  /** The row is Deleting or gone, or a task is about to mark it; and no spawn task interferes. */
  ghost predicate Doomed(s: System, i: nat, id: ClusterId) {
    id in s.issued && !Active(s, id) && (RowDeleting(s, id) || OnItsWay(s, i, id))
  }

  lemma ReadGoesOn(cfg: Settings, s: System, i: nat, at: Instant, id: ClusterId)
    requires RowsOk(cfg, s) && OnItsWay(s, i, id) && s.tasks[i].DeleteCall?
    ensures OnItsWay(AfterRead(s, i, at, true), i, id)
  {
    assert RowOk(cfg, s, id);
  }

  lemma WriteArrives(cfg: Settings, s: System, i: nat, id: ClusterId)
    requires TasksOk(cfg, s) && OnItsWay(s, i, id) && s.tasks[i].DeleteWrite?
    ensures RowDeleting(AfterWrite(s, i, true), id)
  {
    assert TaskOk(cfg, s, s.tasks[i]);
    WritingChanges(s, i, true);
  }

  lemma DoomedStays(cfg: Settings, s: System, step: Step, i: nat, id: ClusterId)
    requires Inv(cfg, s) && Doomed(s, i, id) && s.phase.Serving?
    requires Enabled(cfg, s, step) && Reliable(s, step) && step != Crash
    ensures Doomed(Apply(cfg, s, step), i, id) && Apply(cfg, s, step).phase.Serving?
  {
    var t := Apply(cfg, s, step);
    StepSummary(cfg, s, step);
    assert Explained(s, step, t.rows, id);
    if OnItsWay(s, i, id) && step.TaskStep? && step.index == i {
      match step.move {
        case Read(at, ok) => ReadGoesOn(cfg, s, i, at, id);
        case Write(ok) => WriteArrives(cfg, s, i, id);
        case _ =>
      }
    } else {
      OthersLetGo(s, step, t, i, id);
    }
  }

  lemma OthersLetGo(s: System, step: Step, t: System, i: nat, id: ClusterId)
    requires Summary(s, step, t) && Doomed(s, i, id) && s.phase.Serving? && step != Crash
    requires OnItsWay(s, i, id) ==> !(step.TaskStep? && step.index == i)
    ensures Doomed(t, i, id)
  {
    assert Explained(s, step, t.rows, id);
  }

  lemma ReaperDooms(cfg: Settings, s: System, id: ClusterId, now: Instant)
    requires Inv(cfg, s) && Enabled(cfg, s, ReaperSees(id, now))
    ensures Doomed(Apply(cfg, s, ReaperSees(id, now)), |s.tasks|, id)
  {
    assert RowOk(cfg, s, id);
    assert id in s.spawns ==> SpawnOk(cfg, s, id);
  }

  lemma {:induction false} RunDoomed(cfg: Settings, ss: seq<System>, steps: seq<Step>, j: nat, k: nat)
    requires Run(cfg, ss, steps) && ReliableRun(ss, steps) && j < k < |ss| && steps[j].ReaperSees? && NoCrash(steps, j, k)
    ensures Doomed(ss[k], |ss[j].tasks|, steps[j].id) && ss[k].phase.Serving?
    decreases k
  {
    if k == j + 1 {
      RunStep(cfg, ss, steps, j);
      RunInv(cfg, ss, steps, j);
      ReaperDooms(cfg, ss[j], steps[j].id, steps[j].now);
    } else {
      RunDoomed(cfg, ss, steps, j, k - 1);
      RunDoomedStep(cfg, ss, steps, k - 1, |ss[j].tasks|, steps[j].id);
    }
  }

  lemma RunDoomedStep(cfg: Settings, ss: seq<System>, steps: seq<Step>, k: nat, i: nat, id: ClusterId)
    requires Run(cfg, ss, steps) && ReliableRun(ss, steps) && k < |steps| && steps[k] != Crash
    requires Doomed(ss[k], i, id) && ss[k].phase.Serving?
    ensures Doomed(ss[k + 1], i, id) && ss[k + 1].phase.Serving?
  {
    RunStep(cfg, ss, steps, k);
    RunInv(cfg, ss, steps, k);
    DoomedStays(cfg, ss[k], steps[k], i, id);
  }

  /** A cluster the reaper has decided on is gone the next time the tasks have run out. */
  lemma ReaperDecisionHappens(cfg: Settings, ss: seq<System>, steps: seq<Step>, j: nat, k: nat)
    requires Run(cfg, ss, steps) && ReliableRun(ss, steps) && NeverForgets(ss, steps)
    requires j < k < |ss| && steps[j].ReaperSees? && NoCrash(steps, j, k) && Idle(ss[k])
    ensures steps[j].id !in ss[k].rows
  {
    RunDoomed(cfg, ss, steps, j, k);
    ReliableNeverAbandons(ss, steps);
    if steps[j].id in ss[k].rows {
      NothingForgottenMeansSettled(cfg, ss, steps, k, steps[j].id);
    }
  }
}
