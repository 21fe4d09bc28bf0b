/** At most one task tears a cluster down, provided the read and the write-back of one delete request are
    not separated by another task's step on that cluster; or, exactly, provided no write-back starts a
    teardown of a row that is not Ready or Failed any more. */
module LifecycleOneTearer {
  import opened Domain
  import opened Lifecycle
  import opened LifecycleInvariant
  import opened LifecycleSummary

  /** While a delete request is between its read and its write-back, only it steps on its cluster. */
  ghost predicate AtomicDelete(s: System, step: Step) {
    forall d :: 0 <= d < |s.tasks| && s.tasks[d].DeleteWrite? && StepOn(s, step) == Some(s.tasks[d].cluster.id) ==>
      step.TaskStep? && step.index == d
  }

  ghost predicate AtomicDeletes(ss: seq<System>, steps: seq<Step>) {
    |ss| == |steps| + 1 && forall k :: 0 <= k < |steps| ==> AtomicDelete(ss[k], steps[k])
  }

  /** A task that tears down `id`, or is committed to starting to. */
  predicate Claims(t: Task, id: ClusterId) {
    || (t.Teardown? && t.cluster.id == id)
    || (t.Dispatch? && t.outcome.StartTeardown? && t.cluster.id == id)
  }

  /** What was read is what the row still says. */
  ghost predicate WritesCurrent(s: System) {
    forall i :: 0 <= i < |s.tasks| && s.tasks[i].DeleteWrite? ==> Current(s, s.tasks[i].cluster)
  }

  ghost predicate Current(s: System, c: Cluster) {
    c.id in s.rows && s.rows[c.id].state == c.state
  }

  ghost predicate WritesApart(s: System) {
    forall i, j | 0 <= i < |s.tasks| && 0 <= j < |s.tasks| && s.tasks[i].DeleteWrite? && s.tasks[j].DeleteWrite?
                  && s.tasks[i].cluster.id == s.tasks[j].cluster.id :: i == j
  }

  ghost predicate ClaimsApart(s: System) {
    forall i, j, id :: 0 <= i < |s.tasks| && 0 <= j < |s.tasks| && Claims(s.tasks[i], id) && Claims(s.tasks[j], id) ==>
      i == j
  }

  ghost predicate ClaimsHaveRows(s: System) {
    forall i, id :: 0 <= i < |s.tasks| && Claims(s.tasks[i], id) ==> id in s.rows
  }

  /** A cluster whose teardown has begun is Deleting or gone, off the startup list, and not worked on
      by any spawn task but the one that tears it down. */
  ghost predicate TearerRow(s: System, e: Tearer) {
    && e.id in s.issued && RowDeleting(s, e.id)
    && (Active(s, e.id) ==> e.BySpawn? && s.spawns[e.id].pc.Tearing?)
    && (s.phase.Reconciling? ==> e.id !in s.phase.todo)
    && !s.phase.Booting?
  }

  /** No other entry of the task list tears it down or is committed to. */
  ghost predicate TearerAlone(s: System, e: Tearer) {
    && (forall i :: 0 <= i < |s.tasks| && Claims(s.tasks[i], e.id) ==> e == ByTask(e.id, i))
    && (e.ByTask? ==> e.index < |s.tasks|)
  }

  ghost predicate TearerOk(s: System, e: Tearer) {
    TearerRow(s, e) && TearerAlone(s, e)
  }

  ghost predicate TearersOk(s: System) {
    && (forall e :: e in s.tearers ==> TearerOk(s, e))
    && (forall e, f :: e in s.tearers && f in s.tearers && e.id == f.id ==> e == f)
  }

  /** Nobody tears down, or is committed to tearing down, what another task does or did. */
  ghost predicate OneTearer(s: System) {
    ClaimsApart(s) && ClaimsHaveRows(s) && TearersOk(s)
  }

  ghost predicate OneTearerInv(s: System) {
    WritesCurrent(s) && WritesApart(s) && OneTearer(s)
  }

  /** The step is a delete's write-back, and the row is there to be written. */
  predicate WritesBack(s: System, step: Step) {
    && step.TaskStep? && step.move == Write(true) && step.index < |s.tasks| && s.tasks[step.index].DeleteWrite?
    && s.tasks[step.index].cluster.id in s.rows
  }

  /** The row that a write-back is about to overwrite. */
  function RowWritten(s: System, step: Step): Cluster
    requires WritesBack(s, step)
  {
    s.rows[s.tasks[step.index].cluster.id]
  }

  /** A write-back that starts a teardown of a row that is not Ready or Failed any more. */
  predicate StartsLate(s: System, step: Step) {
    && WritesBack(s, step) && s.tasks[step.index].outcome.StartTeardown?
    && !(RowWritten(s, step).state.Ready? || RowWritten(s, step).state.Failed?)
  }

  // ----- the parts of the invariant, one lemma each -----

  lemma WritesStayCurrent(cfg: Settings, s: System, step: Step, t: System)
    requires Inv(cfg, s) && OneTearerInv(s) && AtomicDelete(s, step) && Summary(s, step, t)
    ensures WritesCurrent(t)
  {
    forall i | 0 <= i < |t.tasks| && t.tasks[i].DeleteWrite? ensures Current(t, t.tasks[i].cluster) {
      var id := t.tasks[i].cluster.id;
      if step.TaskStep? && step.index == i {
        assert RowOk(cfg, s, s.tasks[i].id);
      } else {
        assert Current(s, s.tasks[i].cluster);
        assert TaskOk(cfg, s, s.tasks[i]);
      }
      assert Explained(s, step, t.rows, id);
    }
  }

  lemma WritesStayApart(cfg: Settings, s: System, step: Step, t: System)
    requires Inv(cfg, s) && OneTearerInv(s) && AtomicDelete(s, step) && Summary(s, step, t)
    ensures WritesApart(t)
  {
    forall i, j | 0 <= i < |t.tasks| && 0 <= j < |t.tasks| && t.tasks[i].DeleteWrite? && t.tasks[j].DeleteWrite?
                  && t.tasks[i].cluster.id == t.tasks[j].cluster.id
      ensures i == j
    {
      if step.TaskStep? && (step.index == i || step.index == j) {
        assert RowOk(cfg, s, s.tasks[step.index].id);
      }
    }
  }

  /** A delete about to start a teardown finds no one else committed to one. */
  lemma FreshClaim(cfg: Settings, s: System, k: nat, j: nat)
    requires Inv(cfg, s) && k < |s.tasks| && j < |s.tasks|
    requires WritesBack(s, TaskStep(k, Write(true))) && s.tasks[k].outcome.StartTeardown?
    requires !StartsLate(s, TaskStep(k, Write(true)))
    ensures !Claims(s.tasks[j], s.tasks[k].cluster.id)
  {
  }

  lemma ClaimsStayApart(cfg: Settings, s: System, step: Step, t: System)
    requires Inv(cfg, s) && ClaimsApart(s) && Summary(s, step, t) && !StartsLate(s, step)
    ensures ClaimsApart(t)
  {
    forall i, j, id | 0 <= i < |t.tasks| && 0 <= j < |t.tasks| && Claims(t.tasks[i], id) && Claims(t.tasks[j], id)
      ensures i == j
    {
      if WritesBack(s, step) && s.tasks[step.index].outcome.StartTeardown? {
        if i < |s.tasks| { FreshClaim(cfg, s, step.index, i); }
        if j < |s.tasks| { FreshClaim(cfg, s, step.index, j); }
      }
      assert i < |s.tasks| && !(step.TaskStep? && step.index == i) ==> t.tasks[i] == s.tasks[i];
      assert j < |s.tasks| && !(step.TaskStep? && step.index == j) ==> t.tasks[j] == s.tasks[j];
    }
  }

  lemma ClaimsKeepRows(cfg: Settings, s: System, step: Step, t: System)
    requires Inv(cfg, s) && OneTearer(s) && Summary(s, step, t) && step != Crash
    requires step.ReconTake? ==> step.id in s.rows
    ensures ClaimsHaveRows(t)
  {
    forall i, id | 0 <= i < |t.tasks| && Claims(t.tasks[i], id) ensures id in t.rows {
      assert Explained(s, step, t.rows, id);
      if i < |s.tasks| {
        assert TaskOk(cfg, s, s.tasks[i]);
        assert id in s.rows;
        if step.SpawnStep? && id in s.spawns {
          assert SpawnOk(cfg, s, id);
        }
        assert step.TaskStep? && step.index != i ==> !Claims(s.tasks[step.index], id);
      }
    }
  }

  lemma TearersStayOk(cfg: Settings, s: System, step: Step, t: System)
    requires Inv(cfg, s) && OneTearer(s) && Summary(s, step, t) && step != Crash && !StartsLate(s, step)
    ensures TearersOk(t)
  {
    forall e | e in t.tearers ensures TearerOk(t, e) {
      assert Explained(s, step, t.rows, e.id);
      if e in s.tearers {
        assert TearerOk(s, e);
        OldTearer(cfg, s, step, t, e);
      } else {
        NewTearer(cfg, s, step, t, e);
      }
    }
    forall e, f | e in t.tearers && f in t.tearers && e.id == f.id ensures e == f {
      if e !in s.tearers && f in s.tearers {
        SoleTearer(cfg, s, step, e, f);
      }
      if f !in s.tearers && e in s.tearers {
        SoleTearer(cfg, s, step, f, e);
      }
    }
  }

  /** The tearer whose teardown call this step is. */
  ghost predicate TearsAs(s: System, step: Step, e: Tearer) {
    || (step.SpawnStep? && step.id in s.spawns && s.spawns[step.id].pc.Tearing? && e == BySpawn(step.id))
    || (step.TaskStep? && step.index < |s.tasks| && s.tasks[step.index].Teardown?
        && e == ByTask(s.tasks[step.index].cluster.id, step.index))
  }

  lemma SoleTearer(cfg: Settings, s: System, step: Step, e: Tearer, f: Tearer)
    requires OneTearer(s) && TearsAs(s, step, e) && f in s.tearers && e.id == f.id
    ensures e == f
  {
  }

  lemma NoClaims(cfg: Settings, s: System, id: ClusterId)
    requires Inv(cfg, s) && Active(s, id)
    ensures forall i :: 0 <= i < |s.tasks| ==> !Claims(s.tasks[i], id)
  {
  }

  lemma OldTearer(cfg: Settings, s: System, step: Step, t: System, e: Tearer)
    requires Inv(cfg, s) && Summary(s, step, t) && step != Crash && !StartsLate(s, step)
    requires e in s.tearers && TearerOk(s, e)
    ensures TearerOk(t, e)
  {
    OldTearerRow(cfg, s, step, t, e);
    OldTearerAlone(cfg, s, step, t, e);
  }

  lemma OldTearerRow(cfg: Settings, s: System, step: Step, t: System, e: Tearer)
    requires Inv(cfg, s) && Summary(s, step, t) && step != Crash && TearerRow(s, e)
    ensures TearerRow(t, e)
  {
    assert Explained(s, step, t.rows, e.id);
  }

  lemma OldTearerAlone(cfg: Settings, s: System, step: Step, t: System, e: Tearer)
    requires TasksOk(cfg, s) && PhaseOk(s) && TasksExplained(s, step, t.tasks) && step != Crash && !StartsLate(s, step)
    requires TearerOk(s, e) && (step.ReconTake? ==> s.phase.Reconciling? && step.id in s.phase.todo)
    ensures TearerAlone(t, e)
  {
  }

  lemma NewTearer(cfg: Settings, s: System, step: Step, t: System, e: Tearer)
    requires Inv(cfg, s) && OneTearer(s) && Summary(s, step, t) && step != Crash
    requires TearsAs(s, step, e)
    ensures TearerOk(t, e)
  {
    if step.SpawnStep? {
      NewSpawnTearer(cfg, s, step, t, e);
    } else {
      NewTaskTearer(cfg, s, step, t, e);
    }
  }

  lemma NewSpawnTearer(cfg: Settings, s: System, step: Step, t: System, e: Tearer)
    requires Inv(cfg, s) && Summary(s, step, t) && step.SpawnStep? && TearsAs(s, step, e)
    ensures TearerOk(t, e)
  {
    assert TearerRow(t, e) by {
      assert SpawnOk(cfg, s, e.id);
      NewSpawnTearerRow(cfg, s, step, t, e);
    }
    assert TearerAlone(t, e) by {
      NoClaims(cfg, s, e.id);
      NoNewClaims(s, step, t, e.id);
    }
  }

  lemma NoNewClaims(s: System, step: Step, t: System, id: ClusterId)
    requires TasksExplained(s, step, t.tasks) && step.SpawnStep?
    requires forall i :: 0 <= i < |s.tasks| ==> !Claims(s.tasks[i], id)
    ensures forall i :: 0 <= i < |t.tasks| ==> !Claims(t.tasks[i], id)
  {
  }

  lemma NewSpawnTearerRow(cfg: Settings, s: System, step: Step, t: System, e: Tearer)
    requires step.SpawnStep? && TearsAs(s, step, e) && SpawnOk(cfg, s, e.id)
    requires Explained(s, step, t.rows, e.id) && SpawnsExplained(s, step, t) && PhaseExplained(s, step, t)
    requires s.issued <= t.issued
    ensures TearerRow(t, e)
  {
  }

  lemma NewTaskTearer(cfg: Settings, s: System, step: Step, t: System, e: Tearer)
    requires Inv(cfg, s) && ClaimsApart(s) && Summary(s, step, t) && step.TaskStep? && TearsAs(s, step, e)
    ensures TearerOk(t, e)
  {
    assert Explained(s, step, t.rows, e.id);
    assert TaskOk(cfg, s, s.tasks[step.index]);
    assert Claims(s.tasks[step.index], e.id);
  }

  lemma InitOneTearer(s: System)
    requires Init(s)
    ensures OneTearerInv(s)
  {
  }

  /** Any step but a late start of a teardown keeps tearers unique, whatever it fails at. */
  lemma TearersStayUnique(cfg: Settings, s: System, step: Step)
    requires Inv(cfg, s) && OneTearer(s) && Enabled(cfg, s, step) && !StartsLate(s, step)
    ensures OneTearer(Apply(cfg, s, step))
  {
    var t := Apply(cfg, s, step);
    if step != Crash {
      StepSummary(cfg, s, step);
      ClaimsStayApart(cfg, s, step, t);
      ClaimsKeepRows(cfg, s, step, t);
      TearersStayOk(cfg, s, step, t);
    }
  }

  /** A write-back of what the row still says does not start late. */
  lemma CurrentNeverLate(cfg: Settings, s: System, step: Step)
    requires TasksOk(cfg, s) && WritesCurrent(s)
    ensures !StartsLate(s, step)
  {
    if WritesBack(s, step) {
      assert TaskOk(cfg, s, s.tasks[step.index]) && Current(s, s.tasks[step.index].cluster);
    }
  }

  lemma OneTearerKeeps(cfg: Settings, s: System, step: Step)
    requires Inv(cfg, s) && OneTearerInv(s) && Enabled(cfg, s, step) && AtomicDelete(s, step)
    ensures OneTearerInv(Apply(cfg, s, step))
  {
    var t := Apply(cfg, s, step);
    if step != Crash {
      StepSummary(cfg, s, step);
      WritesStayCurrent(cfg, s, step, t);
      WritesStayApart(cfg, s, step, t);
    }
    CurrentNeverLate(cfg, s, step);
    TearersStayUnique(cfg, s, step);
  }

  ghost predicate NeverLate(ss: seq<System>, steps: seq<Step>) {
    |ss| == |steps| + 1 && forall k :: 0 <= k < |steps| ==> !StartsLate(ss[k], steps[k])
  }

  lemma {:induction false} RunNeverLate(cfg: Settings, ss: seq<System>, steps: seq<Step>, k: nat)
    requires Run(cfg, ss, steps) && NeverLate(ss, steps) && k < |ss|
    ensures Inv(cfg, ss[k]) && OneTearer(ss[k])
  {
    RunInv(cfg, ss, steps, k);
    if k == 0 {
      InitOneTearer(ss[0]);
    } else {
      RunNeverLate(cfg, ss, steps, k - 1);
      TearersStayUnique(cfg, ss[k - 1], steps[k - 1]);
      assert ss[k - 1 + 1] == Apply(cfg, ss[k - 1], steps[k - 1]);
    }
  }

  lemma {:induction false} RunOneTearer(cfg: Settings, ss: seq<System>, steps: seq<Step>, k: nat)
    requires Run(cfg, ss, steps) && AtomicDeletes(ss, steps) && k < |ss|
    ensures Inv(cfg, ss[k]) && OneTearerInv(ss[k])
  {
    RunInv(cfg, ss, steps, k);
    if k == 0 {
      InitOneTearer(ss[0]);
    } else {
      RunOneTearer(cfg, ss, steps, k - 1);
      OneTearerKeeps(cfg, ss[k - 1], steps[k - 1]);
      assert ss[k - 1 + 1] == Apply(cfg, ss[k - 1], steps[k - 1]);
    }
  }

  /** Since the last start, at most one task has run a teardown of any given cluster, whatever the
      mix of user deletes, repeated deletes, sweeps, cancellations and faults, as long as no write-back
      starts a teardown of a row that is not Ready or Failed any more. */
  lemma OneTearerUnlessLate(cfg: Settings, ss: seq<System>, steps: seq<Step>, k: nat, e: Tearer, f: Tearer)
    requires Run(cfg, ss, steps) && NeverLate(ss, steps) && k < |ss|
    requires e in ss[k].tearers && f in ss[k].tearers && e.id == f.id
    ensures e == f
  {
    RunNeverLate(cfg, ss, steps, k);
  }

  lemma AtomicNeverLate(cfg: Settings, ss: seq<System>, steps: seq<Step>)
    requires Run(cfg, ss, steps) && AtomicDeletes(ss, steps)
    ensures NeverLate(ss, steps)
  {
    forall k | 0 <= k < |steps| ensures !StartsLate(ss[k], steps[k]) {
      RunOneTearer(cfg, ss, steps, k);
      CurrentNeverLate(cfg, ss[k], steps[k]);
    }
  }

  /** With atomic delete requests at most one task since the last start tears a cluster down. */
  lemma AtMostOneTearer(cfg: Settings, ss: seq<System>, steps: seq<Step>, k: nat, e: Tearer, f: Tearer)
    requires Run(cfg, ss, steps) && AtomicDeletes(ss, steps) && k < |ss|
    requires e in ss[k].tearers && f in ss[k].tearers && e.id == f.id
    ensures e == f
  {
    AtomicNeverLate(cfg, ss, steps);
    OneTearerUnlessLate(cfg, ss, steps, k, e, f);
  }

  /** A teardown from the task list still holds its cluster's row, so the directory it wipes has not
      been handed to another cluster: it wipes its own data and leftovers only. */
  lemma WipeHitsOwnDataOnly(cfg: Settings, ss: seq<System>, steps: seq<Step>, k: nat, i: nat, h: Holding)
    requires Run(cfg, ss, steps) && NeverLate(ss, steps) && k < |ss| && DistinctAccounts(cfg)
    requires i < |ss[k].tasks| && ss[k].tasks[i].Teardown?
    requires ss[k].tasks[i].cluster.worker.Some? && h in ss[k].dirs
    requires h.account == ss[k].tasks[i].cluster.worker.value.name && h.slot == ss[k].tasks[i].cluster.slot
    ensures h.id == ss[k].tasks[i].cluster.id || h.id in ss[k].leaked
    ensures ss[k].tasks[i].cluster.id in ss[k].rows
  {
    var s := ss[k];
    RunNeverLate(cfg, ss, steps, k);
    var c := s.tasks[i].cluster;
    assert TaskOk(cfg, s, s.tasks[i]) && Claims(s.tasks[i], c.id);
    assert RowOk(cfg, s, c.id) && HoldingOk(s, h);
    assert h.id in s.rows ==> RowOk(cfg, s, h.id);
  }

  /** The wipe a spawn task makes itself, cancelled or overtaken by a delete, hits its own data and
      leftovers only, with no assumption on scheduling. */
  lemma SpawnWipeHitsOwnDataOnly(cfg: Settings, ss: seq<System>, steps: seq<Step>, k: nat, c: ClusterId, h: Holding)
    requires Run(cfg, ss, steps) && k < |ss| && DistinctAccounts(cfg)
    requires c in ss[k].spawns && ss[k].spawns[c].pc.Tearing?
    requires var own := ss[k].spawns[c].cluster;
             own.worker.Some? && h in ss[k].dirs && h.account == own.worker.value.name && h.slot == own.slot
    ensures h.id == c || h.id in ss[k].leaked
    ensures c in ss[k].rows
  {
    var s := ss[k];
    RunInv(cfg, ss, steps, k);
    assert SpawnOk(cfg, s, c) && RowOk(cfg, s, c) && HoldingOk(s, h);
    assert h.id in s.rows ==> RowOk(cfg, s, h.id);
  }
}
