/** Step by step over the whole protocol: exactly which steps break the guarantees that need a
    scheduling hypothesis. */
module LifecycleExact {
  import opened Domain
  import opened Lifecycle
  import opened LifecycleInvariant
  import opened LifecycleSummary
  import opened LifecycleOneTearer
  import opened LifecycleSafety
  import opened LifecycleProgress
  import opened LifecycleDelete

  // ----- two tearers -----

  /** A write-back about to start a teardown of a cluster that another task is committed to tear down. */
  ghost predicate ClaimsTwice(s: System, step: Step) {
    && WritesBack(s, step) && s.tasks[step.index].outcome.StartTeardown?
    && Claimed(s, s.tasks[step.index].cluster.id)
  }

  lemma WriteClaims(cfg: Settings, s: System, i: nat, ok: bool)
    requires TasksOk(cfg, s) && ClaimsApart(s) && i < |s.tasks| && s.tasks[i].DeleteWrite?
    ensures ClaimsApart(AfterWrite(s, i, ok)) <==> !ClaimsTwice(s, TaskStep(i, Write(ok)))
  {
    var id := s.tasks[i].cluster.id;
    var t := AfterWrite(s, i, ok);
    if ClaimsTwice(s, TaskStep(i, Write(ok))) {
      var j :| 0 <= j < |s.tasks| && Claims(s.tasks[j], id);
      assert j != i && Claims(t.tasks[j], id) && Claims(t.tasks[i], id);
    } else {
      forall a, b, d | 0 <= a < |t.tasks| && 0 <= b < |t.tasks| && Claims(t.tasks[a], d) && Claims(t.tasks[b], d)
        ensures a == b
      {
        assert a != i ==> t.tasks[a] == s.tasks[a];
        assert b != i ==> t.tasks[b] == s.tasks[b];
      }
    }
  }

  /** A step, whatever fails, leaves at most one task committed to tearing each cluster down if and only
      if it is not a write-back that claims a cluster twice. */
  lemma SecondTearerExactly(cfg: Settings, s: System, step: Step)
    requires Inv(cfg, s) && ClaimsApart(s) && Enabled(cfg, s, step)
    ensures ClaimsApart(Apply(cfg, s, step)) <==> !ClaimsTwice(s, step)
  {
    if step.TaskStep? && step.move.Write? {
      WriteClaims(cfg, s, step.index, step.move.ok);
    } else {
      StepSummary(cfg, s, step);
      ClaimsStayApart(cfg, s, step, Apply(cfg, s, step));
    }
  }

  // ----- no tearer -----

  lemma ForgottenUncovered(cfg: Settings, s: System, i: nat)
    requires Inv(cfg, s) && Forgets(s, TaskStep(i, Write(true)))
    ensures !RowCovered(AfterWrite(s, i, true), s.tasks[i].cluster.id)
  {
    var id := s.tasks[i].cluster.id;
    var t := AfterWrite(s, i, true);
    assert TaskOk(cfg, s, s.tasks[i]);
    assert Active(s, id) ==> SpawnOk(cfg, s, id);
    forall j | 0 <= j < |t.tasks| ensures !Claims(t.tasks[j], id) {
      assert TaskOk(cfg, s, s.tasks[j]);
      assert j != i ==> t.tasks[j] == s.tasks[j];
    }
  }

  lemma SpawnAbandons(cfg: Settings, s: System, c: ClusterId, m: SpawnMove)
    requires Inv(cfg, s) && SpawnEnabled(s, c, m) && Abandons(s, SpawnStep(c, m))
    ensures !RowCovered(ApplySpawn(cfg, s, c, m), c)
  {
    var t := ApplySpawn(cfg, s, c, m);
    assert SpawnOk(cfg, s, c);
    NoClaims(cfg, s, c);
    if m.SpawnTear? {
      TearScope(cfg, s, s.spawns[c].cluster, s.spawns[c].pc.at, m.reply);
    }
    assert t.tasks == s.tasks && t.phase == s.phase && !Active(t, c);
  }

  lemma TaskAbandons(cfg: Settings, s: System, i: nat, m: TaskMove)
    requires Inv(cfg, s) && TaskEnabled(s, i, m) && Abandons(s, TaskStep(i, m))
    ensures !RowCovered(ApplyTask(cfg, s, i, m), s.tasks[i].cluster.id)
  {
    var id := s.tasks[i].cluster.id;
    var t := ApplyTask(cfg, s, i, m);
    assert t == Become(s, i, Done);
    assert TaskOk(cfg, s, s.tasks[i]);
    forall j | 0 <= j < |t.tasks| ensures !Claims(t.tasks[j], id) {
      assert j != i ==> t.tasks[j] == s.tasks[j];
    }
  }

  lemma StartupAbandons(cfg: Settings, s: System, step: Step)
    requires Inv(cfg, s) && Enabled(cfg, s, step) && Abandons(s, step) && (step.ReconList? || step.ReconTake?)
    ensures !Covered(Apply(cfg, s, step))
  {
    var t := Apply(cfg, s, step);
    if step.ReconList? {
      var id :| id in s.rows && HalfWay(s.rows[id]);
      assert !RowCovered(t, id);
    } else {
      forall i | 0 <= i < |t.tasks| ensures !Claims(t.tasks[i], step.id) {
        assert TaskOk(cfg, s, s.tasks[i]);
      }
      assert !RowCovered(t, step.id);
    }
  }

  /** Any step, whatever fails, leaves a live task or the startup list in charge of every row half way if
      and only if it does not forget or abandon one. */
  lemma CoveredExactly(cfg: Settings, s: System, step: Step)
    requires Inv(cfg, s) && Covered(s) && Enabled(cfg, s, step)
    ensures Covered(Apply(cfg, s, step)) <==> !Forgets(s, step) && !Abandons(s, step)
  {
    if Forgets(s, step) {
      ForgottenUncovered(cfg, s, step.index);
    } else if Abandons(s, step) {
      match step {
        case SpawnStep(c, m) => SpawnAbandons(cfg, s, c, m);
        case TaskStep(i, m) => TaskAbandons(cfg, s, i, m);
        case _ => StartupAbandons(cfg, s, step);
      }
    } else {
      CoveredKeeps(cfg, s, step);
    }
  }

  /** A write-back to a row whose spawn task has passed its re-check: the task will not see it. */
  predicate PastRecheck(s: System, step: Step) {
    && WritesBack(s, step)
    && var id := s.tasks[step.index].cluster.id;
    id in s.spawns && s.spawns[id].pc.AtPersist?
  }

  /** A re-check that fails on a Deleting row: the task goes on with what it knew. */
  predicate Overlooks(s: System, step: Step) {
    && step.SpawnStep? && step.spawnMove == Recheck(false)
    && step.id in s.rows && s.rows[step.id].state.Deleting?
  }

  /** No spawn task is about to write its conclusion over a delete. */
  ghost predicate NonePastRecheck(s: System) {
    forall id :: id in s.spawns && s.spawns[id].pc.AtPersist? && id in s.rows ==> !s.rows[id].state.Deleting?
  }

  lemma NonePastRecheckStays(cfg: Settings, s: System, step: Step, t: System)
    requires Inv(cfg, s) && NonePastRecheck(s) && Summary(s, step, t) && !PastRecheck(s, step)
    requires step.SpawnStep? && step.spawnMove.Recheck? && step.id in t.spawns && t.spawns[step.id].pc.AtPersist? ==>
               (step.id in t.rows ==> !t.rows[step.id].state.Deleting?)
    ensures NonePastRecheck(t)
  {
    forall id | id in t.spawns && t.spawns[id].pc.AtPersist? && id in t.rows ensures !t.rows[id].state.Deleting? {
      assert Explained(s, step, t.rows, id);
      assert id in s.spawns ==> SpawnOk(cfg, s, id);
    }
  }

  lemma RecheckOutcome(cfg: Settings, s: System, c: ClusterId, ok: bool)
    requires SpawnOk(cfg, s, c) && s.spawns[c].pc.AtRecheck?
    ensures var t := AfterRecheck(s, c, ok);
            && t.rows == s.rows && c in t.spawns
            && (t.spawns[c].pc.AtPersist? <==> !ok || !s.rows[c].state.Deleting?)
  {
  }

  lemma NonePastRecheckExactly(cfg: Settings, s: System, step: Step)
    requires Inv(cfg, s) && NonePastRecheck(s) && Enabled(cfg, s, step)
    ensures NonePastRecheck(Apply(cfg, s, step)) <==> !PastRecheck(s, step) && !Overlooks(s, step)
  {
    var t := Apply(cfg, s, step);
    if step.SpawnStep? && step.spawnMove.Recheck? {
      assert SpawnOk(cfg, s, step.id);
      RecheckOutcome(cfg, s, step.id, step.spawnMove.ok);
      assert t == AfterRecheck(s, step.id, step.spawnMove.ok);
    }
    if PastRecheck(s, step) {
      WrittenPastRecheck(cfg, s, step.index);
    } else if !Overlooks(s, step) {
      StepSummary(cfg, s, step);
      NonePastRecheckStays(cfg, s, step, t);
    }
  }

  lemma WrittenPastRecheck(cfg: Settings, s: System, i: nat)
    requires TasksOk(cfg, s) && PastRecheck(s, TaskStep(i, Write(true)))
    ensures !NonePastRecheck(AfterWrite(s, i, true))
  {
    assert TaskOk(cfg, s, s.tasks[i]);
    WritingChanges(s, i, true);
    assert AfterWrite(s, i, true).spawns == s.spawns;
  }

  /** Every row half way is in the hands of somebody who will bring it to its end. */
  ghost predicate Attended(s: System) {
    Covered(s) && NonePastRecheck(s)
  }

  /** Any step, whatever fails, leaves every row half way attended if and only if it does not forget or
      abandon one, comes past a spawn's re-check or makes that re-check overlook a delete. */
  lemma NoTearerExactly(cfg: Settings, s: System, step: Step)
    requires Inv(cfg, s) && Attended(s) && Enabled(cfg, s, step)
    ensures Attended(Apply(cfg, s, step))
            <==> !Forgets(s, step) && !Abandons(s, step) && !PastRecheck(s, step) && !Overlooks(s, step)
  {
    CoveredExactly(cfg, s, step);
    NonePastRecheckExactly(cfg, s, step);
  }

  // ----- exactly one -----

  /** The outcome a write-back acts on does not fit the row it overwrites: a fresh teardown is right for
      a row that is still Ready or Failed, and for no other. */
  predicate Misjudges(s: System, step: Step) {
    Forgets(s, step) || StartsLate(s, step)
  }

  /** A task that brings cluster `e.id` down, or is committed to: its spawn task, unless that has passed
      its re-check and is about to write its conclusion, or an entry of the task list. */
  predicate Responsible(s: System, e: Tearer) {
    match e
    case BySpawn(id) => Active(s, id) && !s.spawns[id].pc.AtPersist?
    case ByTask(id, i) => i < |s.tasks| && Claims(s.tasks[i], id)
  }

  ghost predicate ExactlyOne(s: System, id: ClusterId) {
    exists e: Tearer :: e.id == id && Responsible(s, e) && forall f: Tearer :: f.id == id && Responsible(s, f) ==> f == e
  }

  ghost predicate OneForEach(s: System) {
    ClaimsApart(s) && Attended(s)
  }

  /** Exactly one task will tear down every cluster that is Deleting while serving. */
  lemma OneForEachMeans(cfg: Settings, s: System, id: ClusterId)
    requires Inv(cfg, s) && OneForEach(s) && s.phase.Serving? && id in s.rows && s.rows[id].state.Deleting?
    ensures ExactlyOne(s, id)
  {
    assert RowCovered(s, id);
    if Active(s, id) {
      NoClaims(cfg, s, id);
    }
    OneIsUnique(s, id);
  }

  lemma OneIsUnique(s: System, id: ClusterId)
    requires ClaimsApart(s) && (Active(s, id) || Claimed(s, id)) && !(Active(s, id) && Claimed(s, id))
    requires Active(s, id) ==> !s.spawns[id].pc.AtPersist?
    ensures ExactlyOne(s, id)
  {
    if Active(s, id) {
      assert Responsible(s, BySpawn(id));
    } else {
      var i :| 0 <= i < |s.tasks| && Claims(s.tasks[i], id);
      assert Responsible(s, ByTask(id, i));
    }
  }

  /** A step after which the law of exactly one task is broken: a write-back that does not fit its row or
      comes past the spawn's re-check, a failed re-check that overlooks a delete, or a failed call that
      abandons its row. */
  ghost predicate Strays(s: System, step: Step) {
    Misjudges(s, step) || PastRecheck(s, step) || Overlooks(s, step) || Abandons(s, step)
  }

  /** Any step, whatever fails, keeps exactly one task for each cluster going down if and only if it does
      not stray. */
  lemma ExactlyOneExactly(cfg: Settings, s: System, step: Step)
    requires Inv(cfg, s) && OneForEach(s) && Enabled(cfg, s, step)
    ensures OneForEach(Apply(cfg, s, step)) <==> !Strays(s, step)
  {
    SecondTearerExactly(cfg, s, step);
    NoTearerExactly(cfg, s, step);
    LateIsTwice(cfg, s, step);
  }

  /** Where every row half way is covered, starting late is claiming twice. */
  lemma LateIsTwice(cfg: Settings, s: System, step: Step)
    requires Inv(cfg, s) && Covered(s)
    ensures StartsLate(s, step) <==> ClaimsTwice(s, step)
  {
    if WritesBack(s, step) {
      var id := s.tasks[step.index].cluster.id;
      assert TaskOk(cfg, s, s.tasks[step.index]) && RowCovered(s, id);
      if Claimed(s, id) {
        var j :| 0 <= j < |s.tasks| && Claims(s.tasks[j], id);
        assert TaskOk(cfg, s, s.tasks[j]);
      }
    }
  }

  /** At the write-back itself: afterwards exactly one task will tear the cluster down if and only if the
      outcome fits the row and no spawn task of the cluster has passed its re-check. */
  lemma WriteBackExactly(cfg: Settings, s: System, step: Step)
    requires Inv(cfg, s) && OneForEach(s) && WritesBack(s, step)
    ensures ExactlyOne(Apply(cfg, s, step), s.tasks[step.index].cluster.id) <==> !Misjudges(s, step) && !PastRecheck(s, step)
  {
    var id := s.tasks[step.index].cluster.id;
    var t := Apply(cfg, s, step);
    LateIsTwice(cfg, s, step);
    assert TaskOk(cfg, s, s.tasks[step.index]);
    if ClaimsTwice(s, step) {
      var j :| 0 <= j < |s.tasks| && Claims(s.tasks[j], id);
      assert Responsible(t, ByTask(id, j)) && Responsible(t, ByTask(id, step.index));
    } else if Misjudges(s, step) || PastRecheck(s, step) {
      NobodyAfter(cfg, s, step.index);
    } else {
      ExactlyOneExactly(cfg, s, step);
      StepKeeps(cfg, s, step);
      OneForEachMeans(cfg, t, id);
    }
  }

  lemma NobodyAfter(cfg: Settings, s: System, i: nat)
    requires Inv(cfg, s) && (Forgets(s, TaskStep(i, Write(true))) || PastRecheck(s, TaskStep(i, Write(true))))
    ensures forall e: Tearer :: e.id == s.tasks[i].cluster.id ==> !Responsible(AfterWrite(s, i, true), e)
  {
    var id := s.tasks[i].cluster.id;
    var t := AfterWrite(s, i, true);
    assert TaskOk(cfg, s, s.tasks[i]);
    assert Active(s, id) ==> SpawnOk(cfg, s, id);
    forall j | 0 <= j < |t.tasks| ensures !Claims(t.tasks[j], id) {
      assert TaskOk(cfg, s, s.tasks[j]);
      assert j != i ==> t.tasks[j] == s.tasks[j];
    }
  }

  /** A run, whatever fails in it, has exactly one task for each cluster going down at every moment if and
      only if no step in it strays. */
  lemma {:induction false} RunExactlyOne(cfg: Settings, ss: seq<System>, steps: seq<Step>, k: nat)
    requires Run(cfg, ss, steps) && k < |ss|
    ensures (forall j :: 0 <= j <= k ==> OneForEach(ss[j])) <==> (forall j :: 0 <= j < k ==> !Strays(ss[j], steps[j]))
  {
    if k == 0 {
    } else {
      RunExactlyOne(cfg, ss, steps, k - 1);
      RunInv(cfg, ss, steps, k - 1);
      assert ss[k - 1 + 1] == Apply(cfg, ss[k - 1], steps[k - 1]);
      if OneForEach(ss[k - 1]) {
        ExactlyOneExactly(cfg, ss[k - 1], steps[k - 1]);
      }
    }
  }

  /** Where delete requests are atomic no write-back misjudges its row. */
  lemma AtomicNeverMisjudges(cfg: Settings, ss: seq<System>, steps: seq<Step>, k: nat)
    requires Run(cfg, ss, steps) && AtomicDeletes(ss, steps) && k < |steps|
    ensures !Misjudges(ss[k], steps[k])
  {
    AtomicNeverForgets(cfg, ss, steps);
    AtomicNeverLate(cfg, ss, steps);
  }

  ghost predicate NeverStrays(ss: seq<System>, steps: seq<Step>) {
    |ss| == |steps| + 1 && forall k :: 0 <= k < |steps| ==> !Strays(ss[k], steps[k])
  }

  /** Where delete requests and the conclusions of spawn tasks are atomic and the repository answers, no
      step strays: an atomic delete fits its row, and an atomic conclusion lets none past its re-check. */
  lemma AtomicNeverStrays(cfg: Settings, ss: seq<System>, steps: seq<Step>)
    requires Run(cfg, ss, steps) && AtomicDeletes(ss, steps) && AtomicConclusions(ss, steps) && ReliableRun(ss, steps)
    ensures NeverStrays(ss, steps)
  {
    ReliableNeverAbandons(ss, steps);
    forall k | 0 <= k < |steps| ensures !Strays(ss[k], steps[k]) {
      AtomicNeverMisjudges(cfg, ss, steps, k);
      ConclusionNeverPast(ss[k], steps[k]);
      assert !Abandons(ss[k], steps[k]) && AtomicConclusion(ss[k], steps[k]);
    }
  }

  lemma ConclusionNeverPast(s: System, step: Step)
    ensures AtomicConclusion(s, step) ==> !PastRecheck(s, step) && !Overlooks(s, step)
  {
  }

  /** Under both hypotheses exactly one task will tear down any cluster that is Deleting while serving. */
  lemma BothMeanExactlyOne(cfg: Settings, ss: seq<System>, steps: seq<Step>, k: nat, id: ClusterId)
    requires Run(cfg, ss, steps) && AtomicDeletes(ss, steps) && AtomicConclusions(ss, steps) && ReliableRun(ss, steps)
    requires k < |ss| && ss[k].phase.Serving? && id in ss[k].rows && ss[k].rows[id].state.Deleting?
    ensures ExactlyOne(ss[k], id)
  {
    AtomicNeverStrays(cfg, ss, steps);
    RunExactlyOne(cfg, ss, steps, k);
    RunInv(cfg, ss, steps, k);
    OneForEachMeans(cfg, ss[k], id);
  }

  // ----- a delete that is lost, or changed -----

  /** Writes the conclusion of the spawn of `id` over a row that has become Deleting since the re-check. */
  predicate Overwrites(s: System, step: Step, id: ClusterId) {
    && step.SpawnStep? && step.id == id && step.spawnMove.Persist? && step.spawnMove.ok
    && id in s.rows && s.rows[id].state.Deleting?
  }

  /** Of all steps of the protocol, whatever fails, exactly those that overwrite a Deleting row with the
      conclusion of its spawn take a row down the order. */
  lemma LostDeleteExactly(cfg: Settings, s: System, step: Step, id: ClusterId)
    requires Inv(cfg, s) && Enabled(cfg, s, step) && id in s.issued
    ensures Rank(StateOf(Apply(cfg, s, step), id)) < Rank(StateOf(s, id)) <==> Overwrites(s, step, id)
  {
    assert id in s.spawns ==> SpawnOk(cfg, s, id);
    if Overwrites(s, step, id) {
      OverwritingChanges(cfg, s, id, step.spawnMove.at);
    } else {
      StepExplained(cfg, s, step, id);
      OthersKeepRank(cfg, s, step, Apply(cfg, s, step), id);
    }
  }

  lemma OthersKeepRank(cfg: Settings, s: System, step: Step, t: System, id: ClusterId)
    requires Explained(s, step, t.rows, id) && !Overwrites(s, step, id) && (id in s.spawns ==> SpawnOk(cfg, s, id))
    requires id in s.issued && (step.SpawnStep? && step.spawnMove.Persist? && !step.spawnMove.ok ==> t.rows == s.rows)
    ensures Rank(StateOf(s, id)) <= Rank(StateOf(t, id))
  {
  }

  /** The same overwriting, or the write-back of another delete with another time or reason. */
  predicate ChangesDelete(s: System, step: Step, id: ClusterId) {
    || Overwrites(s, step, id)
    || (WritesBack(s, step) && s.tasks[step.index].cluster.id == id && s.tasks[step.index].next != s.rows[id].state)
  }

  lemma OverwritingChanges(cfg: Settings, s: System, id: ClusterId, at: Instant)
    requires SpawnOk(cfg, s, id) && s.spawns[id].pc.AtPersist? && id in s.rows && s.rows[id].state.Deleting?
    ensures var t := AfterPersist(s, id, at, true); id in t.rows && (t.rows[id].state.Ready? || t.rows[id].state.Failed?)
  {
  }

  lemma WritingChanges(s: System, i: nat, ok: bool)
    requires i < |s.tasks| && s.tasks[i].DeleteWrite?
    ensures var t := AfterWrite(s, i, ok); var id := s.tasks[i].cluster.id;
            if ok && id in s.rows then id in t.rows && t.rows[id].state == s.tasks[i].next else t.rows == s.rows
  {
  }

  /** Exactly these steps change an accepted delete without removing its row. */
  lemma AcceptedDeleteChangesExactly(cfg: Settings, s: System, step: Step, id: ClusterId)
    requires Inv(cfg, s) && Enabled(cfg, s, step) && id in s.rows && s.rows[id].state.Deleting?
    ensures var t := Apply(cfg, s, step);
            id in t.rows && t.rows[id].state != s.rows[id].state <==> ChangesDelete(s, step, id)
  {
    StepExplained(cfg, s, step, id);
    if Overwrites(s, step, id) {
      assert SpawnOk(cfg, s, id);
      OverwritingChanges(cfg, s, id, step.spawnMove.at);
    } else if step.TaskStep? && step.move.Write? {
      WritingChanges(s, step.index, step.move.ok);
    }
  }

  ghost predicate Stays(ss: seq<System>, j: nat, k: nat, id: ClusterId)
    requires j <= k < |ss| && id in ss[j].rows
  {
    forall m :: j <= m <= k && id in ss[m].rows ==> ss[m].rows[id].state == ss[j].rows[id].state
  }

  /** None of the steps from `j` on changes an accepted delete of `id`. */
  ghost predicate Unchanged(ss: seq<System>, steps: seq<Step>, j: nat, k: nat, id: ClusterId)
    requires j <= k <= |steps| < |ss|
  {
    forall m :: j <= m < k ==> !ChangesDelete(ss[m], steps[m], id)
  }

  /** In any run an accepted delete keeps its time and reason until its row is gone if and only if none
      of these steps occurs. */
  lemma {:induction false} DeleteStaysExactly(cfg: Settings, ss: seq<System>, steps: seq<Step>, j: nat, k: nat, id: ClusterId)
    requires Run(cfg, ss, steps) && j <= k < |ss| && id in ss[j].rows && ss[j].rows[id].state.Deleting?
    ensures Stays(ss, j, k, id) <==> Unchanged(ss, steps, j, k, id)
    decreases k
  {
    if j == k {
    } else {
      DeleteStaysExactly(cfg, ss, steps, j, k - 1, id);
      if Stays(ss, j, k - 1, id) {
        StaysLonger(ss, j, k, id);
        RunStepStays(cfg, ss, steps, j, k, id);
      }
      LastOfMany(ss, steps, j, k, id);
    }
  }

  lemma LastOfMany(ss: seq<System>, steps: seq<Step>, j: nat, k: nat, id: ClusterId)
    requires j < k <= |steps| < |ss| && id in ss[j].rows
    ensures Stays(ss, j, k, id) ==> Stays(ss, j, k - 1, id)
    ensures Unchanged(ss, steps, j, k, id) <==>
              Unchanged(ss, steps, j, k - 1, id) && !ChangesDelete(ss[k - 1], steps[k - 1], id)
  {
  }

  lemma StepStays(cfg: Settings, s: System, step: Step, before: ClusterState, id: ClusterId)
    requires Inv(cfg, s) && Enabled(cfg, s, step) && before.Deleting?
    requires id in s.rows ==> s.rows[id].state == before
    requires id !in s.rows ==> id in s.issued
    ensures var t := Apply(cfg, s, step);
            (id in t.rows ==> t.rows[id].state == before) <==> !ChangesDelete(s, step, id)
  {
    if id in s.rows {
      AcceptedDeleteChangesExactly(cfg, s, step, id);
    } else {
      StepSummary(cfg, s, step);
      GoneStays(s, step, Apply(cfg, s, step), id);
    }
  }

  /** What `StepStays` says, at moment `k` of a run. */
  lemma RunStepStays(cfg: Settings, ss: seq<System>, steps: seq<Step>, j: nat, k: nat, id: ClusterId)
    requires Run(cfg, ss, steps) && j < k < |ss| && id in ss[j].rows && ss[j].rows[id].state.Deleting?
    requires id in ss[k - 1].rows ==> ss[k - 1].rows[id].state == ss[j].rows[id].state
    ensures (id in ss[k].rows ==> ss[k].rows[id].state == ss[j].rows[id].state)
            <==> !ChangesDelete(ss[k - 1], steps[k - 1], id)
  {
    RunInv(cfg, ss, steps, k - 1);
    RunIssued(cfg, ss, steps, j, k - 1, id);
    StepStays(cfg, ss[k - 1], steps[k - 1], ss[j].rows[id].state, id);
    assert ss[k - 1 + 1] == Apply(cfg, ss[k - 1], steps[k - 1]);
  }

  lemma StaysLonger(ss: seq<System>, j: nat, k: nat, id: ClusterId)
    requires j < k < |ss| && id in ss[j].rows && Stays(ss, j, k - 1, id)
    ensures id in ss[k - 1].rows ==> ss[k - 1].rows[id].state == ss[j].rows[id].state
    ensures Stays(ss, j, k, id) <==> (id in ss[k].rows ==> ss[k].rows[id].state == ss[j].rows[id].state)
  {
  }

  lemma IssuedStays(cfg: Settings, s: System, step: Step)
    requires Inv(cfg, s) && Enabled(cfg, s, step)
    ensures s.issued <= Apply(cfg, s, step).issued
  {
    StepSummary(cfg, s, step);
  }

  lemma {:induction false} RunIssued(cfg: Settings, ss: seq<System>, steps: seq<Step>, j: nat, k: nat, id: ClusterId)
    requires Run(cfg, ss, steps) && j <= k < |ss| && id in ss[j].rows
    ensures id in ss[k].issued
    decreases k
  {
    if j == k {
      RunInv(cfg, ss, steps, k);
      assert RowOk(cfg, ss[k], id);
    } else {
      RunIssued(cfg, ss, steps, j, k - 1, id);
      RunInv(cfg, ss, steps, k - 1);
      IssuedStays(cfg, ss[k - 1], steps[k - 1]);
      assert ss[k - 1 + 1] == Apply(cfg, ss[k - 1], steps[k - 1]);
    }
  }

  /** An accepted delete that none of these steps changes, in a run that forgets and abandons no
      row, has removed its row by the time the tasks have run out. */
  lemma UnchangedDeleteHappens(cfg: Settings, ss: seq<System>, steps: seq<Step>, j: nat, k: nat, id: ClusterId)
    requires Run(cfg, ss, steps) && NeverAbandons(ss, steps) && NeverForgets(ss, steps)
    requires j <= k < |ss| && id in ss[j].rows && ss[j].rows[id].state.Deleting? && Idle(ss[k])
    requires Unchanged(ss, steps, j, k, id)
    ensures id !in ss[k].rows
  {
    DeleteStaysExactly(cfg, ss, steps, j, k, id);
    assert Stays(ss, j, k, id);
    if id in ss[k].rows {
      NothingForgottenMeansSettled(cfg, ss, steps, k, id);
    }
  }
}
