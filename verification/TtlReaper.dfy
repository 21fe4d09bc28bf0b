/** The sweep that deletes expired and long-failed clusters. */
module TtlReaper {
  import opened Domain
  import opened Repository
  import opened ClusterService
  import opened Reconciliation

  datatype SweepReply = SweepReply(at: Instant, answered: bool)

  type SweepReplies = ClusterId -> SweepReply

  predicate Due(c: Cluster, now: Instant, grace: Duration) {
    DueForReaping(c.state, now, grace).Some?
  }

  function Reaped(c: Cluster, now: Instant, grace: Duration, at: Instant): Cluster
    requires Due(c, now, grace)
  {
    c.(state := Deleting(at, DueForReaping(c.state, now, grace).value))
  }

  predicate Taken(c: Cluster, now: Instant, grace: Duration, env: SweepReplies) {
    Due(c, now, grace) && env(c.id).answered
  }

  /** The rows after the sweep has dealt with those in `seen`. */
  function Swept(rows: Rows, now: Instant, grace: Duration, env: SweepReplies, seen: set<ClusterId>): Rows {
    map id | id in rows ::
      if id in seen && Taken(rows[id], now, grace, env) then Reaped(rows[id], now, grace, env(rows[id].id).at) else rows[id]
  }

  /** The results name the rows taken among `seen`, each once, with the follow-up for the caller. */
  ghost predicate Reports(results: seq<(Cluster, DeleteOutcome)>, rows: Rows, now: Instant, grace: Duration,
                          env: SweepReplies, seen: set<ClusterId>)
  {
    && (forall i :: 0 <= i < |results| ==>
          var (c, outcome) := results[i];
          && c.id in seen && c.id in rows && Taken(rows[c.id], now, grace, env)
          && c == Reaped(rows[c.id], now, grace, env(c.id).at) && outcome.StartTeardown?)
    && (forall i, j :: 0 <= i < j < |results| ==> results[i].0.id != results[j].0.id)
    && (forall id :: id in seen && id in rows && Taken(rows[id], now, grace, env) ==>
          exists i :: 0 <= i < |results| && results[i].0.id == id)
  }

  /** One sweep. A row whose delete request is not answered is left for the next one. */
  method RunOnce(service: ClusterService, now: Instant, grace: Duration, listed: bool, env: SweepReplies)
    returns (results: seq<(Cluster, DeleteOutcome)>)
    modifies service.repository
    ensures var table := old(service.repository.table); var rows := Decoded(table);
            if listed && Readable(table) then
              && Readable(service.repository.table)
              && Decoded(service.repository.table) == Swept(rows, now, grace, env, rows.Keys)
              && Reports(results, rows, now, grace, env, rows.Keys)
            else
              service.repository.table == table && results == []
  {
    results := [];
    if !listed {
      return;
    }
    ghost var rows := Decoded(service.repository.table);
    ghost var seen: set<ClusterId> := {};
    var list := service.repository.ListAll();
    ListAgreesOrFails(service.repository.table);
    if list.Err? {
      return;
    }
    var all := list.value;
    assert Swept(rows, now, grace, env, {}) == rows;
    for i := 0 to |all|
      invariant Readable(service.repository.table)
      invariant seen == set k | 0 <= k < i :: all[k].id
      invariant Decoded(service.repository.table) == Swept(rows, now, grace, env, seen)
      invariant Reports(results, rows, now, grace, env, seen)
    {
      var cluster := all[i];
      assert cluster.id in rows && rows[cluster.id] == cluster && cluster.id !in seen;
      assert Decoded(service.repository.table)[cluster.id] == cluster;
      var result := ReapRow(service, cluster, now, grace, env(cluster.id));
      SweptMore(rows, now, grace, env, seen, cluster);
      ReportsMore(results, rows, now, grace, env, seen, cluster);
      if result.Some? {
        results := results + [result.value];
      }
      seen := seen + {cluster.id};
    }
    AllSeen(all, rows, seen);
  }

  /** One round of the loop. */
  method ReapRow(service: ClusterService, cluster: Cluster, now: Instant, grace: Duration, reply: SweepReply)
    returns (result: Option<(Cluster, DeleteOutcome)>)
    requires Readable(service.repository.table)
    requires cluster.id in service.repository.table && Decoded(service.repository.table)[cluster.id] == cluster
    modifies service.repository
    ensures Readable(service.repository.table)
    ensures if Due(cluster, now, grace) && reply.answered then
              && Decoded(service.repository.table)
                 == old(Decoded(service.repository.table))[cluster.id := Reaped(cluster, now, grace, reply.at)]
              && result == Some((Reaped(cluster, now, grace, reply.at), StartTeardown))
            else
              service.repository.table == old(service.repository.table) && result == None
  {
    match DueForReaping(cluster.state, now, grace) {
      case None => result := None;
      case Some(reason) =>
        if !reply.answered {
          return None;
        }
        DeleteExactly(service.repository.table, cluster.id, cluster.owner, reason, reply.at);
        var deleted := service.RequestDelete(cluster.id, cluster.owner, reason, reply.at);
        match deleted {
          case Ok(updated) => result := Some(updated);
          case Err(_) => result := None;
        }
    }
  }

  lemma SweptMore(rows: Rows, now: Instant, grace: Duration, env: SweepReplies, seen: set<ClusterId>, c: Cluster)
    requires c.id in rows && rows[c.id] == c
    ensures Swept(rows, now, grace, env, seen + {c.id})
            == if Taken(c, now, grace, env)
               then Swept(rows, now, grace, env, seen)[c.id := Reaped(c, now, grace, env(c.id).at)]
               else Swept(rows, now, grace, env, seen)
  {
  }

  lemma ReportsMore(results: seq<(Cluster, DeleteOutcome)>, rows: Rows, now: Instant, grace: Duration,
                    env: SweepReplies, seen: set<ClusterId>, c: Cluster)
    requires Reports(results, rows, now, grace, env, seen)
    requires c.id in rows && rows[c.id] == c && c.id !in seen
    ensures if Taken(c, now, grace, env)
            then Reports(results + [(Reaped(c, now, grace, env(c.id).at), StartTeardown)], rows, now, grace, env, seen + {c.id})
            else Reports(results, rows, now, grace, env, seen + {c.id})
  {
    if Taken(c, now, grace, env) {
      var more := results + [(Reaped(c, now, grace, env(c.id).at), StartTeardown)];
      assert more[|results|].0.id == c.id;
      forall id | id in seen + {c.id} && id in rows && Taken(rows[id], now, grace, env)
        ensures exists i :: 0 <= i < |more| && more[i].0.id == id
      {
        if id != c.id {
          var i :| 0 <= i < |results| && results[i].0.id == id;
          assert more[i].0.id == id;
        }
      }
    }
  }

  /** One turn of the endless loop: the sweep, then a teardown task for each cluster that needs one. */
  method Turn(service: ClusterService, now: Instant, grace: Duration, listed: bool, env: SweepReplies)
    returns (started: seq<Cluster>)
    modifies service.repository
    ensures var table := old(service.repository.table); var rows := Decoded(table);
            if listed && Readable(table) then
              && Decoded(service.repository.table) == Swept(rows, now, grace, env, rows.Keys)
              && (forall i, j :: 0 <= i < j < |started| ==> started[i].id != started[j].id)
              && (forall c :: c in started <==>
                    c.id in rows && Taken(rows[c.id], now, grace, env) && c == Reaped(rows[c.id], now, grace, env(c.id).at))
            else
              service.repository.table == table && started == []
  {
    ghost var rows := Decoded(service.repository.table);
    ghost var table := service.repository.table;
    var results := RunOnce(service, now, grace, listed, env);
    started := [];
    for i := 0 to |results|
      invariant |started| <= i
      invariant listed && Readable(table) ==> |started| == i && forall k :: 0 <= k < i ==> started[k] == results[k].0
    {
      match results[i].1 {
        case StartTeardown => started := started + [results[i].0];
        case CancelSpawn =>
        case AlreadyDeleting =>
      }
    }
    if listed && Readable(table) {
      forall c ensures c in started <==>
                       c.id in rows && Taken(rows[c.id], now, grace, env) && c == Reaped(rows[c.id], now, grace, env(c.id).at)
      {
        if c.id in rows && Taken(rows[c.id], now, grace, env) && c == Reaped(rows[c.id], now, grace, env(c.id).at) {
          var i :| 0 <= i < |results| && results[i].0.id == c.id;
          assert started[i] == c;
        }
      }
    }
  }

  function Sweep(rows: Rows, now: Instant, grace: Duration, env: SweepReplies): Rows {
    Swept(rows, now, grace, env, rows.Keys)
  }

  /** A sweep moves to Deleting precisely those Ready rows whose time has come and Failed rows past their
      grace whose request is answered, and leaves every other row as it was. */
  lemma SweepExactly(rows: Rows, now: Instant, grace: Duration, env: SweepReplies, id: ClusterId)
    requires Keyed(rows) && id in rows
    ensures Sweep(rows, now, grace, env).Keys == rows.Keys
    ensures var row := rows[id]; var after := Sweep(rows, now, grace, env)[id];
            && (env(id).answered && row.state.Ready? && now >= row.state.decommissionAt ==>
                  after == row.(state := Deleting(env(id).at, TtlExpired)))
            && (env(id).answered && row.state.Failed? && now >= row.state.failedAt + grace ==>
                  after == row.(state := Deleting(env(id).at, SpawnFailed)))
            && (after != row ==>
                  && env(id).answered
                  && ( || (row.state.Ready? && now >= row.state.decommissionAt)
                       || (row.state.Failed? && now >= row.state.failedAt + grace)))
  {
  }

  lemma ReportsOnlyDue(results: seq<(Cluster, DeleteOutcome)>, rows: Rows, now: Instant, grace: Duration,
                       env: SweepReplies, seen: set<ClusterId>)
    requires Reports(results, rows, now, grace, env, seen)
    ensures results != [] ==> exists id :: id in rows && Due(rows[id], now, grace)
  {
    if results != [] {
      assert results[0].0.id in rows;
    }
  }

  lemma NothingDueAfterSweep(rows: Rows, now: Instant, grace: Duration, env: SweepReplies, again: SweepReplies)
    requires Keyed(rows) && forall id :: id in rows ==> env(id).answered
    ensures var once := Sweep(rows, now, grace, env);
            && Sweep(once, now, grace, again) == once
            && forall id :: id in once ==> !Due(once[id], now, grace)
  {
  }

  /** A sweep at the same time right after an answered one finds nothing and changes nothing. */
  method SweepTwice(service: ClusterService, now: Instant, grace: Duration, env: SweepReplies, again: SweepReplies)
    returns (first: seq<(Cluster, DeleteOutcome)>, second: seq<(Cluster, DeleteOutcome)>)
    requires Readable(service.repository.table)
    requires forall id :: id in service.repository.table ==> env(id).answered
    modifies service.repository
    ensures second == []
    ensures Decoded(service.repository.table) == Sweep(Decoded(old(service.repository.table)), now, grace, env)
  {
    ghost var rows := Decoded(service.repository.table);
    first := RunOnce(service, now, grace, true, env);
    NothingDueAfterSweep(rows, now, grace, env, again);
    ghost var once := Decoded(service.repository.table);
    second := RunOnce(service, now, grace, true, again);
    ReportsOnlyDue(second, once, now, grace, again, once.Keys);
  }
}
