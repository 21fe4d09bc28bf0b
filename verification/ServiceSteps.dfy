/** The services, run without interruption, take the steps of the lifecycle protocol. */
module ServiceSteps {
  import opened Domain
  import opened Persistence
  import opened Repository
  import opened RepositoryRefinement
  import opened ClusterService
  import opened Lifecycle

  /** A delete request served in one go is the protocol's read followed by its write-back, and the
      follow-up it names is the one the protocol dispatches on. */
  lemma DeleteIsReadThenWrite(s: System, i: nat, table: Table, at: Instant)
    requires i < |s.tasks| && s.tasks[i].DeleteCall? && Readable(table) && s.rows == Decoded(table)
    ensures var call := s.tasks[i];
            var read := AfterRead(s, i, at, true);
            var (after, deleted) := DeleteResult(table, call.id, call.owner, call.reason, at);
            && (deleted.Ok? <==> read.tasks[i].DeleteWrite?)
            && (deleted.Err? ==> read == s.(tasks := s.tasks[i := Done]))
            && (deleted.Ok? ==>
                  AfterWrite(read, i, true)
                  == s.(rows := Decoded(after), tasks := s.tasks[i := Dispatch(deleted.value.0, deleted.value.1, call.byReaper)]))
  {
    var call := s.tasks[i];
    DeleteExactly(table, call.id, call.owner, call.reason, at);
    if call.id in s.rows && s.rows[call.id].owner == call.owner {
      var read := AfterRead(s, i, at, true);
      assert read.tasks[i].cluster == s.rows[call.id];
      assert read.tasks[i].cluster.id == call.id;
    }
  }

  /** A create that succeeds is the protocol's insert, and the cluster handed to the spawn task is the
      one the protocol starts it on; times to live arrive as whole seconds. */
  lemma CreateIsInsert(cfg: Settings, s: System, limits: Limits, table: Table,
                       id: ClusterId, owner: ClientId, service: ServiceSpec, ttl: Duration, at: Instant)
    requires Readable(table) && s.rows == Decoded(table) && WholeSeconds(ttl)
    requires limits.minTtl == cfg.minTtl && limits.maxTtl == cfg.maxTtl && limits.maxClustersPerUser == cfg.maxClustersPerUser
    requires s.phase.Serving? && id !in s.issued && id !in table && at <= s.clock
    ensures var step := Step.Insert(id, owner, service, ttl, at);
            var (after, created) := CreateResult(limits, table, NewCluster(id, owner, service, ttl, at));
            && (created.Ok? <==> Enabled(cfg, s, step))
            && (created.Ok? ==>
                  && Apply(cfg, s, step).rows == Decoded(after)
                  && Apply(cfg, s, step).spawns == s.spawns[id := Spawn(created.value, Launching)])
            && (created.Err? ==> after == table)
  {
    var c := NewCluster(id, owner, service, ttl, at);
    CreateExactly(limits, table, c);
    InsertFindsSmallestSlot(table, c, limits.maxClustersPerUser);
    DecodedOwners(table, owner);
    var (after, created) := CreateResult(limits, table, c);
    if created.Ok? {
      SecondsExactly(ttl);
      assert Rounded(created.value) == created.value;
    }
  }

  /** Persisting the account and persisting the conclusion are the repository's two rewrites. */
  lemma SpawnWritesAreRewrites(cfg: Settings, s: System, id: ClusterId, table: Table, at: Instant)
    requires Readable(table) && s.rows == Decoded(table) && id in s.spawns && id in table
    ensures var c := s.spawns[id].cluster;
            s.spawns[id].pc.AtWorker? && c.service.kind in cfg.backends && c.owner in cfg.accounts ==>
              AfterSetWorker(cfg, s, id, true).rows == Decoded(SqlSetWorker(table, id, cfg.accounts[c.owner]).0)
    ensures s.spawns[id].pc.AtPersist? ==>
              var next := Transition(s.spawns[id].pc.seen, Conclusion(s.spawns[id].cluster, s.spawns[id].pc.result, at));
              AfterPersist(s, id, at, true).rows
              == if next.Ok? then Decoded(SqlUpdateState(table, id, next.value).0) else s.rows
  {
    var c := s.spawns[id].cluster;
    if s.spawns[id].pc.AtWorker? && c.service.kind in cfg.backends && c.owner in cfg.accounts {
      ModifyDecodes(table, id, Spawning(0), cfg.accounts[c.owner]);
    }
    if s.spawns[id].pc.AtPersist? {
      var next := Transition(s.spawns[id].pc.seen, Conclusion(c, s.spawns[id].pc.result, at));
      if next.Ok? {
        ModifyDecodes(table, id, next.value, WorkerUser("", 0, 0));
      }
    }
  }
}
