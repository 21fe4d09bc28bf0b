/** The pass over every row at startup: what it makes of a whole table, under any faults, and what
    a pass without faults restores. */
module Reconciliation {
  import opened Domain
  import opened Repository
  import opened RepositoryRefinement
  import opened Lifecycle
  import opened LifecycleInvariant
  import opened TeardownTask

  /** What the calls made for one row answer. */
  datatype RowReply = RowReply(at: Instant, updated: bool, liveness: Liveness, tear: TearReplies)

  type Replies = ClusterId -> RowReply

  /** What the pass makes of one row, from the replies to that row's own calls. */
  function RowAfter(cfg: Settings, c: Cluster, r: RowReply): Option<Cluster> {
    match c.state
    case Spawning(_) =>
      if !r.updated then Some(c)
      else if r.tear.deleted then None
      else Some(c.(state := Deleting(r.at, AdminForced)))
    case Ready(_, _, _) =>
      if c.service.kind in cfg.backends && r.liveness.Lost? && r.updated
      then Some(c.(state := Failed(r.at, "lost after restart")))
      else Some(c)
    case Deleting(_, _) => if r.tear.deleted then None else Some(c)
    case Failed(_, _) => Some(c)
  }

  predicate TornDown(c: Cluster, r: RowReply) {
    c.state.Deleting? || (c.state.Spawning? && r.updated)
  }

  /** The rows after the pass has dealt with those in `seen`. */
  function Pass(cfg: Settings, rows: Rows, env: Replies, seen: set<ClusterId>): Rows {
    map id | id in rows && (id in seen ==> RowAfter(cfg, rows[id], env(id)).Some?) ::
      if id in seen then RowAfter(cfg, rows[id], env(id)).value else rows[id]
  }

  function PassRes(cfg: Settings, rows: Rows, env: Replies, seen: set<ClusterId>, res: set<Resource>): set<Resource> {
    set r | r in res &&
            !(r.id in seen && r.id in rows && TornDown(rows[r.id], env(r.id)) && rows[r.id].service.kind in cfg.backends
              && Removes(rows[r.id], env(r.id).tear.backend, r))
  }

  ghost predicate Erased(rows: Rows, env: Replies, seen: set<ClusterId>, h: Holding) {
    exists id :: id in seen && id in rows && TornDown(rows[id], env(id)) && Erases(rows[id], env(id).tear.wipe, h)
  }

  ghost function PassDirs(rows: Rows, env: Replies, seen: set<ClusterId>, dirs: set<Holding>): set<Holding> {
    set h | h in dirs && !Erased(rows, env, seen, h)
  }

  ghost predicate Keyed(rows: Rows) {
    forall id :: id in rows ==> rows[id].id == id
  }

  /** Goes over the rows listed at the start, one at a time, past every failure. */
  method Run(deps: TaskDeps, listed: bool, env: Replies)
    modifies deps, deps.repository
    ensures var table := old(deps.repository.table); var rows := Decoded(table);
            if listed && Readable(table) then
              && Readable(deps.repository.table)
              && Decoded(deps.repository.table) == Pass(deps.cfg, rows, env, rows.Keys)
              && deps.res == PassRes(deps.cfg, rows, env, rows.Keys, old(deps.res))
              && deps.dirs == PassDirs(rows, env, rows.Keys, old(deps.dirs))
            else
              deps.repository.table == table && deps.res == old(deps.res) && deps.dirs == old(deps.dirs)
  {
    if !listed {
      return;
    }
    ghost var rows, res0, dirs0 := Decoded(deps.repository.table), deps.res, deps.dirs;
    ghost var seen: set<ClusterId> := {};
    var list := deps.repository.ListAll();
    ListAgreesOrFails(deps.repository.table);
    if list.Err? {
      return;
    }
    var todo := list.value;
    assert Pass(deps.cfg, rows, env, {}) == rows;
    for i := 0 to |todo|
      invariant Readable(deps.repository.table)
      invariant seen == set k | 0 <= k < i :: todo[k].id
      invariant Decoded(deps.repository.table) == Pass(deps.cfg, rows, env, seen)
      invariant deps.res == PassRes(deps.cfg, rows, env, seen, res0)
      invariant deps.dirs == PassDirs(rows, env, seen, dirs0)
    {
      assert todo[i].id in rows && todo[i].id !in seen;
      assert Decoded(deps.repository.table)[todo[i].id] == rows[todo[i].id];
      ReconcileRow(deps, todo[i], env(todo[i].id));
      OneMore(deps.cfg, rows, env, seen, todo[i].id, res0, dirs0);
      seen := seen + {todo[i].id};
    }
    AllSeen(todo, rows, seen);
  }

  /** One round of the loop. */
  method ReconcileRow(deps: TaskDeps, cluster: Cluster, reply: RowReply)
    requires Readable(deps.repository.table)
    requires cluster.id in deps.repository.table && Decoded(deps.repository.table)[cluster.id] == cluster
    modifies deps, deps.repository
    ensures Readable(deps.repository.table)
    ensures var rows := old(Decoded(deps.repository.table)); var after := RowAfter(deps.cfg, cluster, reply);
            Decoded(deps.repository.table) == (if after.Some? then rows[cluster.id := after.value] else rows - {cluster.id})
    ensures deps.res == if TornDown(cluster, reply) then ResAfter(deps.cfg, old(deps.res), cluster, reply.tear.backend)
                        else old(deps.res)
    ensures deps.dirs == if TornDown(cluster, reply) then DirsAfter(old(deps.dirs), cluster, reply.tear.wipe)
                         else old(deps.dirs)
  {
    match cluster.state {
      case Spawning(_) =>
        var deleting := Deleting(reply.at, AdminForced);
        if reply.updated {
          UpdateDecodes(deps.repository.table, cluster.id, deleting, reply.tear.deleted);
          var written := deps.repository.UpdateState(cluster.id, deleting);
          TearDown(deps, cluster.(state := deleting), reply.tear);
        }
      case Ready(_, _, _) =>
        if cluster.service.kind in deps.cfg.backends && reply.liveness.Lost? && reply.updated {
          var failed := Failed(reply.at, "lost after restart");
          UpdateDecodes(deps.repository.table, cluster.id, failed, false);
          var written := deps.repository.UpdateState(cluster.id, failed);
        }
      case Deleting(_, _) =>
        DeleteDecodes(deps.repository.table, cluster.id, reply.tear.deleted);
        TearDown(deps, cluster, reply.tear);
      case Failed(_, _) =>
    }
  }

  lemma UpdateDecodes(table: Table, id: ClusterId, state: ClusterState, deleted: bool)
    requires Readable(table) && id in table
    ensures var (after, written) := SqlUpdateState(table, id, state);
            && Decoded(after) == Decoded(table)[id := Decoded(table)[id].(state := state)]
            && Readable(after) && written == Ok(())
            && (deleted ==> Decoded(after - {id}) == Decoded(table) - {id})
  {
  }

  lemma DeleteDecodes(table: Table, id: ClusterId, deleted: bool)
    requires Readable(table) && id in table
    ensures deleted ==> Decoded(table - {id}) == Decoded(table) - {id}
    ensures !deleted ==> Decoded(table)[id := Decoded(table)[id]] == Decoded(table)
  {
  }

  lemma ListAgreesOrFails(table: Table)
    ensures if Readable(table) then SqlList(table, table.Keys) == Ok(Decoded(table)) else SqlList(table, table.Keys).Err?
  {
    if Readable(table) {
      ListAgrees(table, ClientId(""));
    }
  }

  lemma OneMore(cfg: Settings, rows: Rows, env: Replies, seen: set<ClusterId>, id: ClusterId,
                res: set<Resource>, dirs: set<Holding>)
    requires id in rows && rows[id].id == id && id !in seen
    ensures var after := RowAfter(cfg, rows[id], env(id)); var before := Pass(cfg, rows, env, seen);
            Pass(cfg, rows, env, seen + {id}) == if after.Some? then before[id := after.value] else before - {id}
    ensures PassRes(cfg, rows, env, seen + {id}, res)
            == if TornDown(rows[id], env(id)) then ResAfter(cfg, PassRes(cfg, rows, env, seen, res), rows[id], env(id).tear.backend)
               else PassRes(cfg, rows, env, seen, res)
    ensures PassDirs(rows, env, seen + {id}, dirs)
            == if TornDown(rows[id], env(id)) then DirsAfter(PassDirs(rows, env, seen, dirs), rows[id], env(id).tear.wipe)
               else PassDirs(rows, env, seen, dirs)
  {
  }

  lemma AllSeen(todo: seq<Cluster>, rows: Rows, seen: set<ClusterId>)
    requires Listing(todo, rows) && seen == set k | 0 <= k < |todo| :: todo[k].id
    ensures seen == rows.Keys
  {
    DistinctCount(todo, seen);
    assert seen <= rows.Keys;
    assert rows.Keys == seen + (rows.Keys - seen);
    assert |rows.Keys| == |seen| + |rows.Keys - seen|;
  }

  lemma {:induction false} DistinctCount(todo: seq<Cluster>, all: set<ClusterId>)
    requires forall i, j :: 0 <= i < j < |todo| ==> todo[i].id != todo[j].id
    requires all == set k | 0 <= k < |todo| :: todo[k].id
    ensures |all| == |todo|
  {
    if todo == [] {
    } else {
      var n := |todo| - 1;
      var fewer := set k | 0 <= k < n :: todo[..n][k].id;
      DistinctCount(todo[..n], fewer);
      assert fewer == set k | 0 <= k < n :: todo[k].id;
      assert all == fewer + {todo[n].id};
    }
  }

  // ----- what a pass achieves -----

  function Reconciled(cfg: Settings, rows: Rows, env: Replies): Rows {
    Pass(cfg, rows, env, rows.Keys)
  }

  /** Every call succeeds and every probe answers. */
  ghost predicate FaultFree(env: Replies) {
    forall id :: env(id).updated && !env(id).liveness.Unknown? && env(id).tear.deleted
                 && env(id).tear.backend.ok && env(id).tear.wipe.ok
  }

  /** A pass without faults leaves no row half way: Spawning and Deleting rows are gone, a surviving
      Ready row of a registered kind is alive, the Failed rows are the old ones and the Ready ones found
      dead, and everything else about a surviving row is as it was. */
  lemma RestoresConsistency(cfg: Settings, rows: Rows, env: Replies, id: ClusterId)
    requires FaultFree(env)
    ensures var after := Reconciled(cfg, rows, env);
            && (id in after <==> id in rows && (rows[id].state.Ready? || rows[id].state.Failed?))
            && (id in after ==>
                  && after[id] == rows[id].(state := after[id].state)
                  && (after[id].state == rows[id].state || after[id].state == Failed(env(id).at, "lost after restart"))
                  && (after[id].state.Failed? <==>
                        rows[id].state.Failed? || (rows[id].service.kind in cfg.backends && env(id).liveness.Lost?))
                  && (after[id].state.Ready? && after[id].service.kind in cfg.backends ==> env(id).liveness.Alive?))
  {
  }

  /** What becomes of a row under any faults: a Spawning row is deleted by the administrator unless that
      could not be written, and then torn down; a Deleting row is torn down; a Ready row of a registered
      kind is failed if it is found lost and that could be written; nothing else changes. */
  lemma PassExactly(cfg: Settings, rows: Rows, env: Replies, id: ClusterId)
    requires id in rows
    ensures var after := Reconciled(cfg, rows, env); var row, r := rows[id], env(id);
            && (row.state.Spawning? && !r.updated ==> id in after && after[id] == row)
            && (row.state.Spawning? && r.updated ==>
                  if r.tear.deleted then id !in after
                  else id in after && after[id] == row.(state := Deleting(r.at, AdminForced)))
            && (row.state.Deleting? ==> if r.tear.deleted then id !in after else id in after && after[id] == row)
            && (row.state.Ready? ==>
                  id in after
                  && after[id] == if row.service.kind in cfg.backends && r.liveness == Lost && r.updated
                                  then row.(state := Failed(r.at, "lost after restart")) else row)
            && (row.state.Failed? ==> id in after && after[id] == row)
  {
  }

  /** A second pass with the same answers changes nothing, faults or not: neither rows, nor resources,
      nor directories. */
  lemma SecondPassChangesNothing(cfg: Settings, rows: Rows, env: Replies, res: set<Resource>, dirs: set<Holding>)
    ensures var once := Reconciled(cfg, rows, env);
            var res1 := PassRes(cfg, rows, env, rows.Keys, res); var dirs1 := PassDirs(rows, env, rows.Keys, dirs);
            && Reconciled(cfg, once, env) == once
            && PassRes(cfg, once, env, once.Keys, res1) == res1
            && PassDirs(once, env, once.Keys, dirs1) == dirs1
  {
    var once := Reconciled(cfg, rows, env);
    forall h | Erased(once, env, once.Keys, h) ensures Erased(rows, env, rows.Keys, h) {
      var id :| id in once && TornDown(once[id], env(id)) && Erases(once[id], env(id).tear.wipe, h);
      assert id in rows.Keys && TornDown(rows[id], env(id)) && Erases(rows[id], env(id).tear.wipe, h);
    }
  }

  /** The directory of a row. */
  predicate LivesIn(c: Cluster, h: Holding) {
    c.worker.Some? && h.account == c.worker.value.name && h.slot == c.slot
  }

  /** No two rows have one directory. */
  ghost predicate DistinctDirectories(rows: Rows) {
    forall c, d | c in rows && d in rows && c != d && rows[c].worker.Some? && rows[d].worker.Some?
                  && rows[c].worker.value.name == rows[d].worker.value.name :: rows[c].slot != rows[d].slot
  }

  /** Faults do not spread: what becomes of a row, of its resources and, directories being distinct, of
      what is in its directory depends on the answers to its own calls only. */
  lemma FaultsStayLocal(cfg: Settings, rows: Rows, env: Replies, other: Replies, res: set<Resource>, dirs: set<Holding>,
                        id: ClusterId)
    requires env(id) == other(id)
    ensures var a := Reconciled(cfg, rows, env); var b := Reconciled(cfg, rows, other);
            (id in a <==> id in b) && (id in a ==> a[id] == b[id])
    ensures forall r: Resource :: r.id == id ==>
              (r in PassRes(cfg, rows, env, rows.Keys, res) <==> r in PassRes(cfg, rows, other, rows.Keys, res))
    ensures id in rows && DistinctDirectories(rows) ==>
              forall h :: LivesIn(rows[id], h) ==>
                (h in PassDirs(rows, env, rows.Keys, dirs) <==> h in PassDirs(rows, other, rows.Keys, dirs))
  {
    if id in rows && DistinctDirectories(rows) {
      forall h | LivesIn(rows[id], h) ensures Erased(rows, env, rows.Keys, h) <==> Erased(rows, other, rows.Keys, h) {
        ErasedByOwner(rows, env, id, h);
        ErasedByOwner(rows, other, id, h);
      }
    }
  }

  /** Only the row whose directory it is can have it wiped. */
  lemma ErasedByOwner(rows: Rows, env: Replies, id: ClusterId, h: Holding)
    requires id in rows && DistinctDirectories(rows) && LivesIn(rows[id], h)
    ensures Erased(rows, env, rows.Keys, h) <==> TornDown(rows[id], env(id)) && Erases(rows[id], env(id).tear.wipe, h)
  {
    if Erased(rows, env, rows.Keys, h) {
      var d :| d in rows && TornDown(rows[d], env(d)) && Erases(rows[d], env(d).tear.wipe, h);
      assert d == id;
    }
    if TornDown(rows[id], env(id)) && Erases(rows[id], env(id).tear.wipe, h) {
      assert id in rows.Keys;
    }
  }

  /** A pass without faults, on rows with distinct directories, empties the directory and removes every
      resource of a row it removes, and touches no other cluster's. */
  lemma RemovesExactlyTheDead(cfg: Settings, rows: Rows, env: Replies, res: set<Resource>, dirs: set<Holding>)
    requires FaultFree(env) && Keyed(rows)
    requires forall r :: r in res ==> r.id in rows && rows[r.id].service.kind in cfg.backends
    requires forall h :: h in dirs ==> h.id in rows && LivesIn(rows[h.id], h)
    requires DistinctDirectories(rows)
    ensures var after := Reconciled(cfg, rows, env);
            && (forall r :: r in PassRes(cfg, rows, env, rows.Keys, res) <==> r in res && r.id in after)
            && (forall h :: h in PassDirs(rows, env, rows.Keys, dirs) <==> h in dirs && h.id in after)
  {
  }

  /** The pass takes the row step of the protocol. */
  lemma RowStepIsProtocolStep(cfg: Settings, s: System, id: ClusterId, r: RowReply)
    requires PhaseOk(s) && s.phase.Reconciling? && id in s.phase.todo && s.phase.todo[id].id == id
    ensures var t := AfterReconTake(cfg, s, id, r.at, r.liveness, r.updated);
            && (TornDown(s.rows[id], r) <==> |t.tasks| == |s.tasks| + 1)
            && (TornDown(s.rows[id], r) ==>
                  && t.tasks[|s.tasks|] == Task.Teardown(t.rows[id], TearBackend)
                  && t.rows == s.rows[id := t.rows[id]]
                  && RowAfter(cfg, s.rows[id], r) == if r.tear.deleted then None else Some(t.rows[id]))
            && (!TornDown(s.rows[id], r) ==> t.rows == s.rows[id := RowAfter(cfg, s.rows[id], r).value] && t.tasks == s.tasks)
  {
  }
}
