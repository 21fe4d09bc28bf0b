/** What the invariant gives over whole runs, with no assumption on scheduling: no orphans, bounded
    footprints, exclusive directories, one owner per spawn, and the time-to-live guarantee. */
module LifecycleSafety {
  import opened Domain
  import opened Allocator
  import opened Lifecycle
  import opened LifecycleInvariant
  import opened LifecycleSummary

  // ----- no orphans -----

  /** The row that answers for something found in the (account, slot) directory or mounted on it. */
  ghost predicate AnsweredFor(s: System, id: ClusterId, account: string, slot: nat) {
    || id in s.leaked
    || ( && id in s.rows && s.rows[id].worker.Some?
         && s.rows[id].worker.value.name == account && s.rows[id].slot == slot)
  }

  /** At every moment of every run, crashes included, whatever exists outside the process has a row
      that already records the account it was made for, unless a failed teardown call left it. */
  lemma NoOrphans(cfg: Settings, ss: seq<System>, steps: seq<Step>, k: nat)
    requires Run(cfg, ss, steps) && k < |ss|
    ensures forall r :: r in ss[k].res ==> AnsweredFor(ss[k], r.id, r.account, r.slot)
    ensures forall h :: h in ss[k].dirs ==> AnsweredFor(ss[k], h.id, h.account, h.slot)
  {
    RunInv(cfg, ss, steps, k);
    forall r | r in ss[k].res ensures AnsweredFor(ss[k], r.id, r.account, r.slot) {
      assert ResourceOk(cfg, ss[k], r);
    }
    forall h | h in ss[k].dirs ensures AnsweredFor(ss[k], h.id, h.account, h.slot) {
      assert HoldingOk(ss[k], h);
    }
  }

  /** The step is a call of a teardown of `id`, to its backend or to its directory, and it fails. */
  predicate FailsTearing(s: System, step: Step, id: ClusterId) {
    || (step.SpawnStep? && step.id == id && step.spawnMove.SpawnTear? && !step.spawnMove.reply.ok
        && id in s.spawns && s.spawns[id].pc.Tearing? && s.spawns[id].pc.at != TearRow)
    || (step.TaskStep? && step.move.TaskTear? && !step.move.reply.ok && step.index < |s.tasks|
        && s.tasks[step.index].Teardown? && s.tasks[step.index].cluster.id == id && s.tasks[step.index].at != TearRow)
  }

  lemma TearLeaks(cfg: Settings, s: System, c: Cluster, at: TearPc, reply: TearReply)
    ensures AfterTear(cfg, s, c, at, reply).leaked <= s.leaked + (if reply.ok || at == TearRow then {} else {c.id})
  {
  }

  lemma SpawnLeaks(cfg: Settings, s: System, c: ClusterId, m: SpawnMove, id: ClusterId)
    requires SpawnEnabled(s, c, m) && s.spawns[c].cluster.id == c && id !in s.leaked
    ensures id in ApplySpawn(cfg, s, c, m).leaked ==> FailsTearing(s, SpawnStep(c, m), id)
  {
    if m.SpawnTear? {
      TearLeaks(cfg, s, s.spawns[c].cluster, s.spawns[c].pc.at, m.reply);
    }
  }

  lemma TaskLeaks(cfg: Settings, s: System, i: nat, m: TaskMove, id: ClusterId)
    requires TaskEnabled(s, i, m) && id !in s.leaked
    ensures id in ApplyTask(cfg, s, i, m).leaked ==> FailsTearing(s, TaskStep(i, m), id)
  {
    if m.TaskTear? {
      TearLeaks(cfg, s, s.tasks[i].cluster, s.tasks[i].at, m.reply);
    }
  }

  lemma OthersLeakNothing(cfg: Settings, s: System, step: Step)
    requires Enabled(cfg, s, step) && !step.SpawnStep? && !step.TaskStep?
    ensures Apply(cfg, s, step).leaked == s.leaked
  {
  }

  /** Nothing but a failed call of its teardown makes a cluster one of those whose leftovers are excepted. */
  lemma OnlyFailuresLeak(cfg: Settings, s: System, step: Step, id: ClusterId)
    requires Inv(cfg, s) && Enabled(cfg, s, step) && id !in s.leaked && id in Apply(cfg, s, step).leaked
    ensures FailsTearing(s, step, id)
  {
    match step {
      case SpawnStep(c, m) =>
        assert SpawnOk(cfg, s, c);
        SpawnLeaks(cfg, s, c, m, id);
      case TaskStep(i, m) => TaskLeaks(cfg, s, i, m, id);
      case _ => OthersLeakNothing(cfg, s, step);
    }
  }

  lemma {:induction false} LeaksHaveCauses(cfg: Settings, ss: seq<System>, steps: seq<Step>, k: nat, id: ClusterId)
    requires Run(cfg, ss, steps) && k < |ss| && id in ss[k].leaked
    ensures exists m :: 0 <= m < k && FailsTearing(ss[m], steps[m], id)
  {
    if k == 0 {
    } else {
      RunInv(cfg, ss, steps, k - 1);
      assert ss[k - 1 + 1] == Apply(cfg, ss[k - 1], steps[k - 1]);
      if id in ss[k - 1].leaked {
        LeaksHaveCauses(cfg, ss, steps, k - 1, id);
      } else {
        OnlyFailuresLeak(cfg, ss[k - 1], steps[k - 1], id);
      }
    }
  }

  ghost predicate NoTeardownFails(ss: seq<System>, steps: seq<Step>, k: nat)
    requires k <= |steps| < |ss|
  {
    forall m, id :: 0 <= m < k ==> !FailsTearing(ss[m], steps[m], id)
  }

  /** Clusters that hold a container, a network or directory contents. */
  function Footprint(s: System): set<ClusterId> {
    (set r | r in s.res :: r.id) + (set h | h in s.dirs :: h.id)
  }

  /** Clusters that hold something made for `account`, leftovers of failed teardown calls aside. */
  function FootprintUnder(s: System, account: string): set<ClusterId> {
    (set r | r in s.res && r.account == account && r.id !in s.leaked :: r.id)
    + (set h | h in s.dirs && h.account == account && h.id !in s.leaked :: h.id)
  }

  /** Under an owner's account there are never containers, networks or data of more clusters than the
      quota, leftovers of failed teardown calls aside; and if no teardown call has failed in the run, there
      are none and whatever there is belongs to a row. */
  lemma FootprintBound(cfg: Settings, ss: seq<System>, steps: seq<Step>, k: nat, owner: ClientId)
    requires Run(cfg, ss, steps) && k < |ss| && DistinctAccounts(cfg) && owner in cfg.accounts
    ensures |FootprintUnder(ss[k], cfg.accounts[owner].name)| <= cfg.maxClustersPerUser
    ensures ss[k].leaked == {} ==> Footprint(ss[k]) <= ss[k].rows.Keys
    ensures NoTeardownFails(ss, steps, k) ==> ss[k].leaked == {}
  {
    var s := ss[k];
    if NoTeardownFails(ss, steps, k) {
      forall id | id in s.leaked ensures false {
        LeaksHaveCauses(cfg, ss, steps, k, id);
      }
    }
    RunInv(cfg, ss, steps, k);
    NoOrphans(cfg, ss, steps, k);
    QuotaHolds(cfg, ss, steps, k, owner);
    forall id | id in FootprintUnder(s, cfg.accounts[owner].name) ensures id in RowsOf(s.rows, owner) {
      assert RowOk(cfg, s, id);
    }
    SubsetSize(FootprintUnder(s, cfg.accounts[owner].name), RowsOf(s.rows, owner));
  }

  lemma SubsetSize<T>(a: set<T>, b: set<T>)
    requires a <= b
    ensures |a| <= |b|
  {
    assert b == a + (b - a);
  }

  /** The quota and the slots hold in every reachable state. */
  lemma QuotaHolds(cfg: Settings, ss: seq<System>, steps: seq<Step>, k: nat, owner: ClientId)
    requires Run(cfg, ss, steps) && k < |ss|
    ensures |RowsOf(ss[k].rows, owner)| <= cfg.maxClustersPerUser
    ensures SlotsDistinct(ss[k].rows) && SlotsBelow(ss[k].rows, cfg.maxClustersPerUser)
  {
    var s := ss[k];
    RunInv(cfg, ss, steps, k);
    forall c | c in s.rows ensures s.rows[c].slot < cfg.maxClustersPerUser {
      assert RowOk(cfg, s, c);
    }
    QuotaFromSlots(s.rows, owner, cfg.maxClustersPerUser);
  }

  /** An owner under quota always gets a slot, so creation never fails for want of one. */
  lemma UnderQuotaAlwaysFits(cfg: Settings, s: System, id: ClusterId, owner: ClientId, service: ServiceSpec, ttl: Duration, at: Instant)
    requires s.phase.Serving? && id !in s.issued && at <= s.clock && cfg.minTtl <= ttl <= cfg.maxTtl
    ensures Enabled(cfg, s, Insert(id, owner, service, ttl, at)) <==> |RowsOf(s.rows, owner)| < cfg.maxClustersPerUser
  {
    if |RowsOf(s.rows, owner)| < cfg.maxClustersPerUser {
      FewUsedSlots(s.rows, owner);
      UnderQuotaHasFreeSlot(UsedSlots(s.rows, owner), cfg.maxClustersPerUser);
    }
  }

  // ----- directories -----

  lemma SameDirectorySameCluster(cfg: Settings, s: System, c: ClusterId, d: ClusterId)
    requires Inv(cfg, s) && DistinctAccounts(cfg) && c in s.rows && d in s.rows
    requires s.rows[c].worker.Some? && s.rows[d].worker.Some?
    requires s.rows[c].worker.value.name == s.rows[d].worker.value.name && s.rows[c].slot == s.rows[d].slot
    ensures c == d
  {
  }

  /** No two clusters ever have data in, or containers mounted on, the same directory, leftovers of
      failed teardown calls aside. */
  lemma DirectoryExclusive(cfg: Settings, ss: seq<System>, steps: seq<Step>, k: nat)
    requires Run(cfg, ss, steps) && k < |ss| && DistinctAccounts(cfg)
    ensures var s := ss[k];
            forall g, h | g in s.dirs && h in s.dirs && g.account == h.account && g.slot == h.slot
                          && g.id !in s.leaked && h.id !in s.leaked :: g.id == h.id
    ensures var s := ss[k];
            forall r, h | r in s.res && h in s.dirs && r.account == h.account && r.slot == h.slot
                          && r.id !in s.leaked && h.id !in s.leaked :: r.id == h.id
    ensures var s := ss[k];
            forall q, r | q in s.res && r in s.res && q.account == r.account && q.slot == r.slot
                          && q.id !in s.leaked && r.id !in s.leaked :: q.id == r.id
  {
    var s := ss[k];
    RunInv(cfg, ss, steps, k);
    NoOrphans(cfg, ss, steps, k);
    forall g, h | g in s.dirs && h in s.dirs && g.account == h.account && g.slot == h.slot
                  && g.id !in s.leaked && h.id !in s.leaked
      ensures g.id == h.id
    {
      SameDirectorySameCluster(cfg, s, g.id, h.id);
    }
    forall r, h | r in s.res && h in s.dirs && r.account == h.account && r.slot == h.slot
                  && r.id !in s.leaked && h.id !in s.leaked
      ensures r.id == h.id
    {
      SameDirectorySameCluster(cfg, s, r.id, h.id);
    }
    forall q, r | q in s.res && r in s.res && q.account == r.account && q.slot == r.slot
                  && q.id !in s.leaked && r.id !in s.leaked
      ensures q.id == r.id
    {
      SameDirectorySameCluster(cfg, s, q.id, r.id);
    }
  }

  /** Two spawn tasks at work never prepare the same directory or stage an upload in the same place. */
  lemma SpawnsApart(cfg: Settings, ss: seq<System>, steps: seq<Step>, k: nat, c: ClusterId, d: ClusterId)
    requires Run(cfg, ss, steps) && k < |ss| && DistinctAccounts(cfg)
    requires Active(ss[k], c) && Active(ss[k], d) && c != d
    requires ss[k].spawns[c].cluster.worker.Some? && ss[k].spawns[d].cluster.worker.Some?
    ensures var a := ss[k].spawns[c].cluster; var b := ss[k].spawns[d].cluster;
            a.worker.value.name != b.worker.value.name || a.slot != b.slot
  {
    RunInv(cfg, ss, steps, k);
    assert SpawnOk(cfg, ss[k], c) && SpawnOk(cfg, ss[k], d);
  }

  /** A cluster that has just been given a slot finds nothing in its directory and nothing mounted
      on it but leftovers of failed teardown calls. */
  lemma CleanStart(cfg: Settings, ss: seq<System>, steps: seq<Step>, k: nat)
    requires Run(cfg, ss, steps) && k < |steps| && DistinctAccounts(cfg)
    requires steps[k].Insert? && steps[k].owner in cfg.accounts
    ensures steps[k].id in ss[k + 1].rows
    ensures var slot := ss[k + 1].rows[steps[k].id].slot; var account := cfg.accounts[steps[k].owner].name;
            && (forall h :: h in ss[k + 1].dirs && h.account == account && h.slot == slot ==> h.id in ss[k + 1].leaked)
            && (forall r :: r in ss[k + 1].res && r.account == account && r.slot == slot ==> r.id in ss[k + 1].leaked)
  {
    var t := ss[k + 1];
    var id := steps[k].id;
    assert t == Apply(cfg, ss[k], steps[k]);
    RunInv(cfg, ss, steps, k + 1);
    assert RowOk(cfg, t, id);
    forall h | h in t.dirs && h.account == cfg.accounts[steps[k].owner].name && h.slot == t.rows[id].slot
      ensures h.id in t.leaked
    {
      assert HoldingOk(t, h);
      assert h.id in t.rows ==> RowOk(cfg, t, h.id);
    }
    forall r | r in t.res && r.account == cfg.accounts[steps[k].owner].name && r.slot == t.rows[id].slot
      ensures r.id in t.leaked
    {
      assert ResourceOk(cfg, t, r);
      assert r.id in t.rows ==> RowOk(cfg, t, r.id);
    }
  }

  // ----- who works on a cluster -----

  /** While a spawn task has not concluded, its row exists and is Spawning or Deleting, and no entry
      of the task list tears the cluster down or is about to. */
  lemma SpawnOwnsItsCluster(cfg: Settings, ss: seq<System>, steps: seq<Step>, k: nat, c: ClusterId)
    requires Run(cfg, ss, steps) && k < |ss| && Active(ss[k], c)
    ensures c in ss[k].rows && (ss[k].rows[c].state.Spawning? || ss[k].rows[c].state.Deleting?)
    ensures forall i :: 0 <= i < |ss[k].tasks| ==>
              && (ss[k].tasks[i].Teardown? ==> ss[k].tasks[i].cluster.id != c)
              && (ss[k].tasks[i].Dispatch? && ss[k].tasks[i].outcome.StartTeardown? ==> ss[k].tasks[i].cluster.id != c)
  {
    RunInv(cfg, ss, steps, k);
    assert SpawnOk(cfg, ss[k], c);
    forall i | 0 <= i < |ss[k].tasks|
      ensures ss[k].tasks[i].Teardown? ==> ss[k].tasks[i].cluster.id != c
      ensures ss[k].tasks[i].Dispatch? && ss[k].tasks[i].outcome.StartTeardown? ==> ss[k].tasks[i].cluster.id != c
    {
      assert TaskOk(cfg, ss[k], ss[k].tasks[i]);
    }
  }

  /** The arms of the spawn task for a vanished row and for an inapplicable transition are never taken. */
  lemma SpawnArmsUnreachable(cfg: Settings, ss: seq<System>, steps: seq<Step>, k: nat, c: ClusterId, at: Instant)
    requires Run(cfg, ss, steps) && k < |ss| && c in ss[k].spawns
    ensures ss[k].spawns[c].pc.AtRecheck? ==> c in ss[k].rows
    ensures ss[k].spawns[c].pc.AtPersist? ==>
              Transition(ss[k].spawns[c].pc.seen, Conclusion(ss[k].spawns[c].cluster, ss[k].spawns[c].pc.result, at)).Ok?
  {
    RunInv(cfg, ss, steps, k);
    assert SpawnOk(cfg, ss[k], c);
  }

  /** The registry holds a token exactly for the launched spawn tasks that are still in flight. */
  lemma RegistryExact(cfg: Settings, ss: seq<System>, steps: seq<Step>, k: nat, c: ClusterId)
    requires Run(cfg, ss, steps) && k < |ss|
    ensures c in ss[k].tokens <==> c in ss[k].spawns && !ss[k].spawns[c].pc.Launching?
  {
    RunInv(cfg, ss, steps, k);
    assert c in ss[k].spawns ==> SpawnOk(cfg, ss[k], c);
  }

  /** The reaper is never told to cancel a spawn. */
  lemma ReaperNeverCancels(cfg: Settings, ss: seq<System>, steps: seq<Step>, k: nat, i: nat)
    requires Run(cfg, ss, steps) && k < |ss| && i < |ss[k].tasks|
    ensures var t := ss[k].tasks[i]; t.Dispatch? && t.byReaper ==> !t.outcome.CancelSpawn?
  {
    RunInv(cfg, ss, steps, k);
    assert TaskOk(cfg, ss[k], ss[k].tasks[i]);
  }

  // ----- time to live -----

  /** Every Ready row ends exactly its requested time after it became ready, within the bounds. */
  lemma ReadyRowsEndOnTime(cfg: Settings, ss: seq<System>, steps: seq<Step>, k: nat, id: ClusterId)
    requires Run(cfg, ss, steps) && k < |ss| && id in ss[k].rows && ss[k].rows[id].state.Ready?
    ensures var row := ss[k].rows[id];
            && row.state.decommissionAt == row.state.readyAt + row.requestedTtl
            && cfg.minTtl <= row.requestedTtl <= cfg.maxTtl
  {
    RunInv(cfg, ss, steps, k);
    assert RowOk(cfg, ss[k], id);
  }

  /** No run deletes a Ready row as expired before its time, although the reaper decided on an
      older snapshot and the decision reaches the row several steps later. */
  lemma NeverExpiredEarly(cfg: Settings, ss: seq<System>, steps: seq<Step>, k: nat, id: ClusterId)
    requires Run(cfg, ss, steps) && k < |steps|
    requires id in ss[k].rows && ss[k].rows[id].state.Ready?
    requires id in ss[k + 1].rows && ss[k + 1].rows[id].state.Deleting? && ss[k + 1].rows[id].state.reason == TtlExpired
    ensures ss[k].clock >= ss[k].rows[id].state.decommissionAt
  {
    var s := ss[k];
    assert ss[k + 1] == Apply(cfg, s, steps[k]);
    RunInv(cfg, ss, steps, k);
    StepExplained(cfg, s, steps[k], id);
    assert WritesNext(s, steps[k], id, ss[k + 1].rows[id].state);
    assert TaskOk(cfg, s, s.tasks[steps[k].index]);
  }

  /** A Ready row never disappears without having been marked Deleting first, and a row disappears
      only once nothing of its cluster is left outside, failed teardown calls aside. */
  lemma RowGoesLast(cfg: Settings, ss: seq<System>, steps: seq<Step>, k: nat, id: ClusterId)
    requires Run(cfg, ss, steps) && k < |steps| && id in ss[k].rows && id !in ss[k + 1].rows
    ensures ss[k].rows[id].state.Deleting?
    ensures id in ss[k].leaked || (!HasResources(ss[k], id) && !HasHoldings(ss[k], id))
  {
    assert ss[k + 1] == Apply(cfg, ss[k], steps[k]);
    RunInv(cfg, ss, steps, k);
    StepExplained(cfg, ss[k], steps[k], id);
  }

  lemma GoneStays(s: System, step: Step, t: System, id: ClusterId)
    requires Summary(s, step, t) && id in s.issued && id !in s.rows
    ensures id in t.issued && id !in t.rows
  {
    assert Explained(s, step, t.rows, id);
  }

  /** Once gone, an id never has a row again, whatever the schedule, the faults and the crashes. */
  lemma {:induction false} GoneForever(cfg: Settings, ss: seq<System>, steps: seq<Step>, j: nat, k: nat, id: ClusterId)
    requires Run(cfg, ss, steps) && j <= k < |ss|
    requires id in ss[j].issued && id !in ss[j].rows
    ensures id in ss[k].issued && id !in ss[k].rows
    decreases k - j
  {
    if j == k {
    } else {
      GoneForever(cfg, ss, steps, j, k - 1, id);
      RunInv(cfg, ss, steps, k - 1);
      StepSummary(cfg, ss[k - 1], steps[k - 1]);
      assert ss[k - 1 + 1] == Apply(cfg, ss[k - 1], steps[k - 1]);
      GoneStays(ss[k - 1], steps[k - 1], ss[k], id);
    }
  }
}
