/** What a spawn task leaves behind, over whole runs: what it writes into its row, that a Ready cluster has
    all its containers, that a cancellation can be taken up, and that the reaper waits out the grace. */
module LifecycleSpawn {
  import opened Domain
  import opened Lifecycle
  import opened LifecycleInvariant
  import opened LifecycleSummary
  import opened LifecycleProgress
  import opened LifecycleOutcome

  // ----- what the final write says -----

  /** The final write of a spawn makes its Spawning row Ready from that moment for the requested time, with
      the connection the backend returned, or Failed at that moment with the summary; a write that fails
      leaves the row as it was. */
  lemma FinalWriteExactly(cfg: Settings, s: System, id: ClusterId, at: Instant, ok: bool)
    requires Inv(cfg, s) && id in s.spawns && s.spawns[id].pc.AtPersist? && id in s.rows
    ensures var t := AfterPersist(s, id, at, ok); var result := s.spawns[id].pc.result; var row := s.rows[id];
            && (!ok ==> t.rows == s.rows)
            && (ok && result.Connected? ==>
                  t.rows == s.rows[id := row.(state := Ready(at, at + row.requestedTtl, result.connection))])
            && (ok && result.SpawnError? ==>
                  t.rows == s.rows[id := row.(state := Failed(at, result.summary))])
  {
    assert SpawnOk(cfg, s, id);
  }

  lemma RunFinalWrite(cfg: Settings, ss: seq<System>, steps: seq<Step>, k: nat, id: ClusterId, at: Instant)
    requires Run(cfg, ss, steps) && k < |steps| && steps[k] == SpawnStep(id, Persist(at, true)) && id in ss[k].rows
    ensures id in ss[k].spawns && ss[k].spawns[id].pc.AtPersist? && at <= ss[k].clock && id in ss[k + 1].rows
    ensures var row := ss[k].rows[id];
            match ss[k].spawns[id].pc.result
            case Connected(connection) =>
              ss[k + 1].rows[id] == row.(state := Ready(at, at + row.requestedTtl, connection))
            case SpawnError(summary) =>
              ss[k + 1].rows[id] == row.(state := Failed(at, summary))
  {
    RunInv(cfg, ss, steps, k);
    RunStep(cfg, ss, steps, k);
    FinalWriteExactly(cfg, ss[k], id, at, true);
  }

  // ----- a Ready cluster is complete -----

  ghost predicate FirstOf(res: set<Resource>, id: ClusterId, plan: seq<ResourceName>, account: string, slot: nat, n: nat) {
    n <= |plan| && forall i :: 0 <= i < n ==> Resource(id, plan[i], account, slot) in res
  }

  /** The first `n` resources of the cluster's kind exist. */
  ghost predicate Built(s: System, id: ClusterId, c: Cluster, n: nat) {
    FirstOf(s.res, id, Plan(c.service.kind), AccountName(c), c.slot, n)
  }

  ghost predicate SpawnBuilt(s: System, id: ClusterId) {
    id in s.spawns ==>
      var c := s.spawns[id].cluster;
      match s.spawns[id].pc
      case AtBackend(left) =>
        && |left| <= |Plan(c.service.kind)| && left == Plan(c.service.kind)[|Plan(c.service.kind)| - |left|..]
        && Built(s, id, c, |Plan(c.service.kind)| - |left|)
      case AtRecheck(result) => result.Connected? ==> Settled(s, id)
      case AtPersist(result, _) => result.Connected? ==> Settled(s, id)
      case _ => true
  }

  /** Everything the task was to create exists, under the account its row names. */
  ghost predicate Settled(s: System, id: ClusterId)
    requires id in s.spawns
  {
    var c := s.spawns[id].cluster;
    && Built(s, id, c, |Plan(c.service.kind)|) && c.worker.Some?
    && (id in s.rows ==> s.rows[id].worker == c.worker)
  }

  ghost predicate RowBuilt(s: System, id: ClusterId) {
    id in s.rows && s.rows[id].state.Ready? ==>
      s.rows[id].worker.Some? && Built(s, id, s.rows[id], |Plan(s.rows[id].service.kind)|)
  }

  ghost predicate AllBuilt(s: System) {
    forall id :: SpawnBuilt(s, id) && RowBuilt(s, id)
  }

  // Resources disappear by a teardown of their cluster and by nothing else.

  predicate TearsDown(s: System, step: Step, id: ClusterId) {
    || (step.SpawnStep? && step.id == id && id in s.spawns && s.spawns[id].pc.Tearing?)
    || (step.TaskStep? && step.index < |s.tasks| && s.tasks[step.index].Teardown? && s.tasks[step.index].cluster.id == id)
  }

  lemma TearRemoves(cfg: Settings, s: System, c: Cluster, at: TearPc, reply: TearReply, r: Resource)
    requires r in s.res && r.id != c.id
    ensures r in AfterTear(cfg, s, c, at, reply).res
  {
  }

  lemma SpawnKeepsRes(cfg: Settings, s: System, c: ClusterId, m: SpawnMove, r: Resource)
    requires SpawnEnabled(s, c, m) && s.spawns[c].cluster.id == c && r in s.res && !TearsDown(s, SpawnStep(c, m), r.id)
    ensures r in ApplySpawn(cfg, s, c, m).res
  {
    if m.SpawnTear? {
      TearRemoves(cfg, s, s.spawns[c].cluster, s.spawns[c].pc.at, m.reply, r);
    }
  }

  lemma TaskKeepsRes(cfg: Settings, s: System, i: nat, m: TaskMove, r: Resource)
    requires TaskEnabled(s, i, m) && r in s.res && !TearsDown(s, TaskStep(i, m), r.id)
    ensures r in ApplyTask(cfg, s, i, m).res
  {
    if m.TaskTear? {
      TearRemoves(cfg, s, s.tasks[i].cluster, s.tasks[i].at, m.reply, r);
    }
  }

  lemma OthersKeepRes(cfg: Settings, s: System, step: Step)
    requires Enabled(cfg, s, step) && !step.SpawnStep? && !step.TaskStep?
    ensures Apply(cfg, s, step).res == s.res
  {
  }

  lemma ResourcesStay(cfg: Settings, s: System, step: Step, id: ClusterId)
    requires Inv(cfg, s) && Enabled(cfg, s, step) && !TearsDown(s, step, id)
    ensures forall r :: r in s.res && r.id == id ==> r in Apply(cfg, s, step).res
  {
    forall r | r in s.res && r.id == id ensures r in Apply(cfg, s, step).res {
      match step {
        case SpawnStep(c, m) =>
          assert SpawnOk(cfg, s, c);
          SpawnKeepsRes(cfg, s, c, m, r);
        case TaskStep(i, m) => TaskKeepsRes(cfg, s, i, m, r);
        case _ => OthersKeepRes(cfg, s, step);
      }
    }
  }

  lemma NotTornDown(cfg: Settings, s: System, step: Step, id: ClusterId)
    requires Inv(cfg, s)
    requires (id in s.rows && s.rows[id].state.Ready?) || (Active(s, id) && !s.spawns[id].pc.Tearing?)
    ensures !TearsDown(s, step, id)
  {
    if step.TaskStep? && step.index < |s.tasks| {
      assert TaskOk(cfg, s, s.tasks[step.index]);
    }
    assert id in s.spawns ==> SpawnOk(cfg, s, id);
  }

  lemma BuiltStays(s: System, t: System, id: ClusterId, c: Cluster, n: nat)
    requires Built(s, id, c, n) && forall r :: r in s.res && r.id == id ==> r in t.res
    ensures Built(t, id, c, n)
  {
  }

  lemma OtherSpawnBuilt(cfg: Settings, s: System, step: Step, t: System, id: ClusterId)
    requires Inv(cfg, s) && SpawnBuilt(s, id) && Summary(s, step, t) && !(step.SpawnStep? && step.id == id)
    requires Active(s, id) && !s.spawns[id].pc.Tearing? ==> forall r :: r in s.res && r.id == id ==> r in t.res
    ensures SpawnBuilt(t, id)
  {
    if id in s.spawns && id in t.spawns {
      assert SpawnOk(cfg, s, id) && Explained(s, step, t.rows, id);
    }
  }

  /** Creating what is left of the plan first makes one more of the plan. */
  lemma OneMore(res: set<Resource>, id: ClusterId, plan: seq<ResourceName>, left: seq<ResourceName>, account: string, slot: nat)
    requires 0 < |left| <= |plan| && left == plan[|plan| - |left|..]
    requires FirstOf(res, id, plan, account, slot, |plan| - |left|)
    ensures left[1..] == plan[|plan| - |left[1..]|..]
    ensures FirstOf(res + {Resource(id, left[0], account, slot)}, id, plan, account, slot, |plan| - |left[1..]|)
  {
  }

  lemma CreateBuilds(s: System, c: ClusterId, failure: Option<string>, made: bool)
    requires c in s.spawns && s.spawns[c].pc.AtBackend? && s.spawns[c].pc.plan != [] && (failure.None? ==> made)
    requires SpawnBuilt(s, c) && s.spawns[c].cluster.id == c
    ensures SpawnBuilt(AfterCreate(s, c, failure, made), c)
  {
    var own := s.spawns[c].cluster;
    var plan := Plan(own.service.kind);
    OneMore(s.res, c, plan, s.spawns[c].pc.plan, AccountName(own), own.slot);
  }

  lemma MoveBuilds(cfg: Settings, s: System, c: ClusterId, m: SpawnMove)
    requires SpawnOk(cfg, s, c) && SpawnEnabled(s, c, m) && SpawnBuilt(s, c)
    ensures SpawnBuilt(ApplySpawn(cfg, s, c, m), c)
  {
    match m {
      case Create(failure, made) => CreateBuilds(s, c, failure, made);
      case SpawnTear(reply) => TearScope(cfg, s, s.spawns[c].cluster, s.spawns[c].pc.at, reply);
      case _ =>
    }
  }

  lemma FinalWriteBuilt(cfg: Settings, s: System, id: ClusterId, at: Instant, ok: bool)
    requires Inv(cfg, s) && id in s.spawns && s.spawns[id].pc.AtPersist? && SpawnBuilt(s, id) && RowBuilt(s, id)
    ensures RowBuilt(AfterPersist(s, id, at, ok), id)
  {
    assert SpawnOk(cfg, s, id) && RowOk(cfg, s, id);
    FinalWriteExactly(cfg, s, id, at, ok);
    var t := AfterPersist(s, id, at, ok);
    if t.rows != s.rows && t.rows[id].state.Ready? {
      var own := s.spawns[id].cluster;
      assert AccountName(t.rows[id]) == AccountName(own) && t.rows[id].service == own.service && t.rows[id].slot == own.slot;
      assert t.res == s.res;
    }
  }

  lemma RowStaysBuilt(cfg: Settings, s: System, step: Step, t: System, id: ClusterId)
    requires Inv(cfg, s) && AllBuilt(s) && Summary(s, step, t)
    requires !(step.SpawnStep? && step.id == id && step.spawnMove.Persist?)
    requires !TearsDown(s, step, id) ==> forall r :: r in s.res && r.id == id ==> r in t.res
    ensures RowBuilt(t, id)
  {
    if id in t.rows && t.rows[id].state.Ready? {
      assert Explained(s, step, t.rows, id) && RowBuilt(s, id) && SpawnBuilt(s, id);
      assert id in s.spawns ==> SpawnOk(cfg, s, id);
      NotTornDown(cfg, s, step, id);
      assert RowOk(cfg, s, id);
      BuiltStays(s, t, id, s.rows[id], |Plan(s.rows[id].service.kind)|);
    }
  }

  lemma BuiltKeeps(cfg: Settings, s: System, step: Step)
    requires Inv(cfg, s) && AllBuilt(s) && Enabled(cfg, s, step)
    ensures AllBuilt(Apply(cfg, s, step))
  {
    var t := Apply(cfg, s, step);
    StepSummary(cfg, s, step);
    forall id ensures SpawnBuilt(t, id) && RowBuilt(t, id) {
      if !TearsDown(s, step, id) {
        ResourcesStay(cfg, s, step, id);
      }
      if step.SpawnStep? && step.id == id && step.spawnMove.Persist? {
        FinalWriteBuilt(cfg, s, id, step.spawnMove.at, step.spawnMove.ok);
      } else {
        RowStaysBuilt(cfg, s, step, t, id);
      }
      if step.SpawnStep? && step.id == id {
        assert SpawnOk(cfg, s, id);
        MoveBuilds(cfg, s, id, step.spawnMove);
      } else {
        if Active(s, id) && !s.spawns[id].pc.Tearing? {
          NotTornDown(cfg, s, step, id);
        }
        OtherSpawnBuilt(cfg, s, step, t, id);
      }
    }
  }

  lemma {:induction false} RunBuilt(cfg: Settings, ss: seq<System>, steps: seq<Step>, k: nat)
    requires Run(cfg, ss, steps) && k < |ss|
    ensures Inv(cfg, ss[k]) && AllBuilt(ss[k])
  {
    RunInv(cfg, ss, steps, k);
    if k == 0 {
    } else {
      RunBuilt(cfg, ss, steps, k - 1);
      BuiltKeeps(cfg, ss[k - 1], steps[k - 1]);
      assert ss[k - 1 + 1] == Apply(cfg, ss[k - 1], steps[k - 1]);
    }
  }

  /** In every state of every run, crashes and faults included, a Ready cluster has its container, or its
      network and all five containers of its stack, mounted on the directory its row names. */
  lemma ReadyIsComplete(cfg: Settings, ss: seq<System>, steps: seq<Step>, k: nat, id: ClusterId)
    requires Run(cfg, ss, steps) && k < |ss| && id in ss[k].rows && ss[k].rows[id].state.Ready?
    ensures ss[k].rows[id].worker.Some?
    ensures var row := ss[k].rows[id]; var account := row.worker.value.name;
            match row.service.kind
            case Postgres => Resource(id, Container(""), account, row.slot) in ss[k].res
            case Supabase =>
              && Resource(id, Network, account, row.slot) in ss[k].res
              && forall suffix :: suffix in {"db", "rest", "auth", "kong", "functions"} ==>
                   Resource(id, Container(suffix), account, row.slot) in ss[k].res
  {
    RunBuilt(cfg, ss, steps, k);
    var s := ss[k];
    var row := s.rows[id];
    assert RowOk(cfg, s, id) && RowBuilt(s, id);
    var plan := Plan(row.service.kind);
    if row.service.kind.Postgres? {
      assert plan[0] == Container("");
    } else {
      assert plan[0] == Network && plan[1] == Container("db") && plan[2] == Container("rest") && plan[3] == Container("auth")
          && plan[4] == Container("kong") && plan[5] == Container("functions");
    }
  }

  // ----- a cancellation is taken up -----

  /** A user's delete that found its cluster Spawning sets the token of the spawn task that is still in
      flight, and the task can then stop between any two of its calls. */
  lemma CancelReachesSpawn(cfg: Settings, s: System, i: nat)
    requires Inv(cfg, s) && i < |s.tasks| && s.tasks[i].Dispatch? && s.tasks[i].outcome.CancelSpawn? && !s.tasks[i].byReaper
    ensures var id := s.tasks[i].cluster.id; var t := AfterAct(s, i);
            && t.tokens.Keys == s.tokens.Keys && t.tasks == s.tasks[i := Done]
            && (id in s.tokens ==> t.tokens[id])
            && (forall d :: d in s.tokens && d != id ==> t.tokens[d] == s.tokens[d])
            && (id in s.spawns && (s.spawns[id].pc.AtWorker? || s.spawns[id].pc.AtPrepare? || s.spawns[id].pc.AtBackend?) ==>
                  Enabled(cfg, t, SpawnStep(id, Cancelled)))
  {
    var id := s.tasks[i].cluster.id;
    assert id in s.spawns ==> SpawnOk(cfg, s, id);
  }

  // ----- the grace of failed clusters -----

  /** Not a Failed row whose grace has yet to pass, and not a row that may still fail. */
  ghost predicate PastGrace(cfg: Settings, s: System, id: ClusterId) {
    && id in s.issued && !Active(s, id)
    && (id in s.rows ==>
          match s.rows[id].state
          case Failed(failedAt, _) => failedAt + cfg.failedGrace <= s.clock
          case Deleting(_, _) => true
          case _ => false)
  }

  ghost predicate GraceOk(cfg: Settings, s: System, t: Task) {
    match t
    case DeleteCall(id, _, reason, _) => reason == SpawnFailed ==> s.phase.Serving? && PastGrace(cfg, s, id)
    case DeleteWrite(c, next, _, _) =>
      next.Deleting? && next.reason == SpawnFailed ==> s.phase.Serving? && PastGrace(cfg, s, c.id)
    case _ => true
  }

  /** No spawn task works on a row deleted for having failed. */
  ghost predicate FailedOk(s: System, id: ClusterId) {
    id in s.rows && s.rows[id].state.Deleting? && s.rows[id].state.reason == SpawnFailed ==> !Active(s, id)
  }

  ghost predicate TasksKept(cfg: Settings, s: System) {
    forall i :: 0 <= i < |s.tasks| ==> GraceOk(cfg, s, s.tasks[i])
  }

  ghost predicate GraceKept(cfg: Settings, s: System) {
    TasksKept(cfg, s) && forall id :: FailedOk(s, id)
  }

  lemma PastGraceStays(cfg: Settings, s: System, step: Step, t: System, id: ClusterId)
    requires Inv(cfg, s) && PastGrace(cfg, s, id) && Summary(s, step, t) && s.phase.Serving?
    ensures PastGrace(cfg, t, id)
  {
    assert Explained(s, step, t.rows, id);
  }

  lemma ReadKeepsGrace(cfg: Settings, s: System, i: nat, at: Instant, ok: bool)
    requires i < |s.tasks| && s.tasks[i].DeleteCall? && GraceOk(cfg, s, s.tasks[i])
    requires s.phase.Serving? && (s.tasks[i].id in s.rows ==> RowOk(cfg, s, s.tasks[i].id) && FailedOk(s, s.tasks[i].id))
    ensures GraceOk(cfg, AfterRead(s, i, at, ok), AfterRead(s, i, at, ok).tasks[i])
  {
  }

  lemma ReaperKeepsGrace(cfg: Settings, s: System, id: ClusterId, now: Instant)
    requires Inv(cfg, s) && Enabled(cfg, s, ReaperSees(id, now))
    ensures var t := Apply(cfg, s, ReaperSees(id, now));
            |t.tasks| == |s.tasks| + 1 && GraceOk(cfg, t, t.tasks[|s.tasks|])
  {
    assert RowOk(cfg, s, id);
    assert id in s.spawns ==> SpawnOk(cfg, s, id);
  }

  lemma MoveKeepsGrace(cfg: Settings, s: System, step: Step, t: System)
    requires TasksExplained(s, step, t.tasks) && step.TaskStep? && !step.move.Read?
    requires TaskEnabled(s, step.index, step.move)
    ensures GraceOk(cfg, t, t.tasks[step.index])
  {
  }

  lemma ArrivalKeepsGrace(cfg: Settings, s: System, step: Step)
    requires Inv(cfg, s) && Enabled(cfg, s, step) && !step.SpawnStep? && !step.TaskStep? && step != Crash
    ensures var t := Apply(cfg, s, step);
            |t.tasks| == |s.tasks| || (|t.tasks| == |s.tasks| + 1 && GraceOk(cfg, t, t.tasks[|s.tasks|]))
  {
    if step.ReaperSees? {
      ReaperKeepsGrace(cfg, s, step.id, step.now);
    }
  }

  lemma SpawnsKeepGrace(cfg: Settings, s: System, c: ClusterId, m: SpawnMove)
    requires Inv(cfg, s) && GraceKept(cfg, s) && SpawnEnabled(s, c, m) && Summary(s, SpawnStep(c, m), ApplySpawn(cfg, s, c, m))
    ensures TasksKept(cfg, ApplySpawn(cfg, s, c, m))
  {
    var t := ApplySpawn(cfg, s, c, m);
    SpawnKeepsTasks(cfg, s, c, m);
    forall i | 0 <= i < |t.tasks| ensures GraceOk(cfg, t, t.tasks[i]) {
      OtherTaskKeepsGrace(cfg, s, SpawnStep(c, m), t, i);
    }
  }

  lemma TasksKeepGrace(cfg: Settings, s: System, k: nat, m: TaskMove)
    requires Inv(cfg, s) && GraceKept(cfg, s) && TaskEnabled(s, k, m) && Summary(s, TaskStep(k, m), ApplyTask(cfg, s, k, m))
    ensures TasksKept(cfg, ApplyTask(cfg, s, k, m))
  {
    var t := ApplyTask(cfg, s, k, m);
    TaskMoveShrinks(cfg, s, k, m);
    if m.Read? {
      assert TaskOk(cfg, s, s.tasks[k]) && (s.tasks[k].id in s.rows ==> RowOk(cfg, s, s.tasks[k].id));
      ReadKeepsGrace(cfg, s, k, m.at, m.ok);
    } else {
      MoveKeepsGrace(cfg, s, TaskStep(k, m), t);
    }
    forall i | 0 <= i < |t.tasks| && i != k ensures GraceOk(cfg, t, t.tasks[i]) {
      OtherTaskKeepsGrace(cfg, s, TaskStep(k, m), t, i);
    }
  }

  lemma ArrivalsKeepGrace(cfg: Settings, s: System, step: Step)
    requires Inv(cfg, s) && GraceKept(cfg, s) && Enabled(cfg, s, step) && Summary(s, step, Apply(cfg, s, step))
    requires !step.SpawnStep? && !step.TaskStep? && step != Crash
    ensures TasksKept(cfg, Apply(cfg, s, step))
  {
    var t := Apply(cfg, s, step);
    ArrivalKeepsGrace(cfg, s, step);
    forall i | 0 <= i < |s.tasks| ensures GraceOk(cfg, t, t.tasks[i]) {
      OtherTaskKeepsGrace(cfg, s, step, t, i);
    }
  }

  lemma RowKeepsGrace(cfg: Settings, s: System, step: Step, t: System, id: ClusterId)
    requires Explained(s, step, t.rows, id) && SpawnsExplained(s, step, t) && FailedOk(s, id)
    requires (id in s.rows ==> id in s.issued) && (id in s.spawns ==> SpawnOk(cfg, s, id))
    requires step.TaskStep? && step.index < |s.tasks| ==> GraceOk(cfg, s, s.tasks[step.index])
    ensures FailedOk(t, id)
  {
  }

  lemma GraceStays(cfg: Settings, s: System, step: Step)
    requires Inv(cfg, s) && GraceKept(cfg, s) && Enabled(cfg, s, step)
    ensures GraceKept(cfg, Apply(cfg, s, step))
  {
    var t := Apply(cfg, s, step);
    StepSummary(cfg, s, step);
    match step {
      case Crash =>
      case SpawnStep(c, m) => SpawnsKeepGrace(cfg, s, c, m);
      case TaskStep(k, m) => TasksKeepGrace(cfg, s, k, m);
      case _ => ArrivalsKeepGrace(cfg, s, step);
    }
    RowsKeepGrace(cfg, s, step, t);
  }

  lemma RowsKeepGrace(cfg: Settings, s: System, step: Step, t: System)
    requires Inv(cfg, s) && GraceKept(cfg, s) && Summary(s, step, t)
    ensures forall id :: FailedOk(t, id)
  {
    forall id ensures FailedOk(t, id) {
      assert id in s.rows ==> RowOk(cfg, s, id);
      assert id in s.spawns ==> SpawnOk(cfg, s, id);
      assert FailedOk(s, id) && Explained(s, step, t.rows, id);
      RowKeepsGrace(cfg, s, step, t, id);
    }
  }

  lemma OtherTaskKeepsGrace(cfg: Settings, s: System, step: Step, t: System, i: nat)
    requires Inv(cfg, s) && GraceKept(cfg, s) && Summary(s, step, t) && step != Crash
    requires i < |s.tasks| && !(step.TaskStep? && step.index == i)
    ensures i < |t.tasks| && GraceOk(cfg, t, t.tasks[i])
  {
    assert t.tasks[i] == s.tasks[i] && GraceOk(cfg, s, s.tasks[i]);
    var id := TaskId(s.tasks[i]);
    if id.Some? && s.phase.Serving? && PastGrace(cfg, s, id.value) {
      PastGraceStays(cfg, s, step, t, id.value);
    }
  }

  lemma {:induction false} RunGrace(cfg: Settings, ss: seq<System>, steps: seq<Step>, k: nat)
    requires Run(cfg, ss, steps) && k < |ss|
    ensures Inv(cfg, ss[k]) && GraceKept(cfg, ss[k])
  {
    RunInv(cfg, ss, steps, k);
    if k == 0 {
    } else {
      RunGrace(cfg, ss, steps, k - 1);
      GraceStays(cfg, ss[k - 1], steps[k - 1]);
      assert ss[k - 1 + 1] == Apply(cfg, ss[k - 1], steps[k - 1]);
    }
  }

  /** No run deletes a Failed row for having failed before its grace has passed since the failure, although
      the decision is taken on an older snapshot. */
  lemma NeverReapedEarly(cfg: Settings, ss: seq<System>, steps: seq<Step>, k: nat, id: ClusterId)
    requires Run(cfg, ss, steps) && k < |steps|
    requires id in ss[k].rows && ss[k].rows[id].state.Failed?
    requires id in ss[k + 1].rows && ss[k + 1].rows[id].state.Deleting? && ss[k + 1].rows[id].state.reason == SpawnFailed
    ensures ss[k].clock >= ss[k].rows[id].state.failedAt + cfg.failedGrace
  {
    var s := ss[k];
    RunStep(cfg, ss, steps, k);
    RunGrace(cfg, ss, steps, k);
    StepExplained(cfg, s, steps[k], id);
    assert WritesNext(s, steps[k], id, ss[k + 1].rows[id].state);
    assert TaskOk(cfg, s, s.tasks[steps[k].index]) && GraceOk(cfg, s, s.tasks[steps[k].index]);
  }
}
