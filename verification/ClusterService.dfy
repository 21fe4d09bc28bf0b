/** Creating and deleting clusters on top of the repository: bounds, quota, and who is told to tear
    a deleted cluster down. */
module ClusterService {
  import opened Domain
  import opened Allocator
  import opened Persistence
  import opened Repository
  import opened RepositoryRefinement

  datatype Limits = Limits(minTtl: Duration, maxTtl: Duration, maxClustersPerUser: U32)

  datatype ClusterError =
    | TtlOutOfBounds(requestedSecs: int, minSecs: int, maxSecs: int)
    | OverQuota(owner: ClientId, count: nat, limit: nat)
    | NotFound(id: ClusterId)
    | NotApplicable(invalid: InvalidTransition)
    | Storage(error: RepositoryError)

  function NewCluster(id: ClusterId, owner: ClientId, service: ServiceSpec, ttl: Duration, now: Instant): Cluster {
    Cluster(id, owner, service, ttl, now, Spawning(now), None, 0)
  }

  function CreateResult(limits: Limits, table: Table, c: Cluster): (Table, Result<Cluster, ClusterError>) {
    if c.requestedTtl < limits.minTtl || c.requestedTtl > limits.maxTtl then
      (table, Err(TtlOutOfBounds(NumSeconds(c.requestedTtl), NumSeconds(limits.minTtl), NumSeconds(limits.maxTtl))))
    else
      var (after, outcome) := SqlInsert(table, c, limits.maxClustersPerUser);
      match outcome
      case Ok(Inserted(slot)) => (after, Ok(c.(slot := slot)))
      case Ok(QuotaExceeded(count)) => (after, Err(OverQuota(c.owner, count, limits.maxClustersPerUser)))
      case Err(e) => (after, Err(Storage(e)))
  }

  function DeleteResult(table: Table, id: ClusterId, owner: ClientId, reason: DeleteReason, at: Instant)
    : (Table, Result<(Cluster, DeleteOutcome), ClusterError>)
  {
    match SqlGetOwned(table, id, owner)
    case Err(e) => (table, Err(Storage(e)))
    case Ok(None) => (table, Err(NotFound(id)))
    case Ok(Some(c)) =>
      match Transition(c.state, DeleteRequested(at, reason))
      case Err(e) => (table, Err(NotApplicable(e)))
      case Ok(next) =>
        var (after, written) := SqlUpdateState(table, id, next);
        match written
        case Err(e) => (after, Err(Storage(e)))
        case Ok(_) => (after, Ok((c.(state := next), OutcomeOf(c.state))))
  }

  class ClusterService {
    const repository: SqliteRepository
    const limits: Limits

    constructor (repository: SqliteRepository, limits: Limits)
      ensures this.repository == repository && this.limits == limits
    {
      this.repository := repository;
      this.limits := limits;
    }

    method Create(owner: ClientId, service: ServiceSpec, ttl: Duration, newId: ClusterId, now: Instant)
      returns (created: Result<Cluster, ClusterError>)
      modifies repository
      ensures (repository.table, created)
              == CreateResult(limits, old(repository.table), NewCluster(newId, owner, service, ttl, now))
      ensures created.Ok? ==>
                && created.value.slot < limits.maxClustersPerUser
                && created.value == Cluster(newId, owner, service, ttl, now, Spawning(now), None, created.value.slot)
    {
      if ttl < limits.minTtl || ttl > limits.maxTtl {
        return Err(TtlOutOfBounds(NumSeconds(ttl), NumSeconds(limits.minTtl), NumSeconds(limits.maxTtl)));
      }
      var cluster := NewCluster(newId, owner, service, ttl, now);
      var outcome := repository.TryInsertIfUnderQuota(cluster, limits.maxClustersPerUser);
      match outcome {
        case Ok(Inserted(slot)) => created := Ok(cluster.(slot := slot));
        case Ok(QuotaExceeded(count)) => created := Err(OverQuota(owner, count, limits.maxClustersPerUser));
        case Err(e) => created := Err(Storage(e));
      }
    }

    method RequestDelete(id: ClusterId, owner: ClientId, reason: DeleteReason, at: Instant)
      returns (deleted: Result<(Cluster, DeleteOutcome), ClusterError>)
      modifies repository
      ensures (repository.table, deleted) == DeleteResult(old(repository.table), id, owner, reason, at)
    {
      var found := repository.GetOwned(id, owner);
      match found {
        case Err(e) => return Err(Storage(e));
        case Ok(None) => return Err(NotFound(id));
        case Ok(Some(cluster)) =>
          var wasAlreadyDeleting := cluster.state.Deleting?;
          var wasSpawning := cluster.state.Spawning?;
          var transition := Transition(cluster.state, DeleteRequested(at, reason));
          match transition {
            case Err(e) => return Err(NotApplicable(e));
            case Ok(next) =>
              var written := repository.UpdateState(id, next);
              match written {
                case Err(e) => return Err(Storage(e));
                case Ok(_) =>
                  var outcome :=
                    if wasAlreadyDeleting then AlreadyDeleting else if wasSpawning then CancelSpawn else StartTeardown;
                  deleted := Ok((cluster.(state := next), outcome));
              }
          }
      }
    }
  }

  /** The row a successful create leaves is the returned cluster to the second; a refused create
      leaves the table alone; and the refusals are exactly these. */
  lemma CreateExactly(limits: Limits, table: Table, c: Cluster)
    requires Readable(table)
    ensures var (after, created) := CreateResult(limits, table, c);
            var few := |RowsOf(Decoded(table), c.owner)| < limits.maxClustersPerUser;
            var inBounds := limits.minTtl <= c.requestedTtl <= limits.maxTtl;
            && (created.Ok? <==> inBounds && few && c.id !in table)
            && (created.Ok? ==>
                  && Decoded(after) == Decoded(table)[c.id := Rounded(created.value)]
                  && created.value == c.(slot := created.value.slot)
                  && created.value.slot !in UsedSlots(Decoded(table), c.owner)
                  && |RowsOf(Decoded(after), c.owner)| <= limits.maxClustersPerUser)
            && (created.Err? ==>
                  && after == table
                  && (!inBounds ==>
                        && created.error.TtlOutOfBounds? && created.error.requestedSecs == NumSeconds(c.requestedTtl)
                        && created.error.minSecs == NumSeconds(limits.minTtl) && created.error.maxSecs == NumSeconds(limits.maxTtl))
                  && (inBounds && !few ==>
                        && created.error.OverQuota? && created.error.owner == c.owner
                        && created.error.count == SaturatingU32(|RowsOf(Decoded(table), c.owner)|)
                        && created.error.limit == limits.maxClustersPerUser)
                  && (inBounds && few ==> created.error == Storage(Db)))
  {
    InsertFindsSmallestSlot(table, c, limits.maxClustersPerUser);
    DecodedOwners(table, c.owner);
    var (after, created) := CreateResult(limits, table, c);
    if created.Ok? {
      DecodedInsert(table, created.value);
      assert RowsOf(Decoded(after), c.owner) == RowsOf(Decoded(table), c.owner) + {c.id};
    }
  }

  /** A request succeeds exactly for the owner of an existing row; it leaves that row Deleting, keeps
      every other field and row, and names the follow-up by the state it found. */
  lemma DeleteExactly(table: Table, id: ClusterId, owner: ClientId, reason: DeleteReason, at: Instant)
    requires Readable(table)
    ensures var rows := Decoded(table);
            var (after, deleted) := DeleteResult(table, id, owner, reason, at);
            && Readable(after)
            && (deleted.Ok? <==> id in rows && rows[id].owner == owner)
            && (deleted.Err? ==> after == table && deleted.error == NotFound(id))
            && (deleted.Ok? ==>
                  var (c, outcome) := deleted.value;
                  && c.state.Deleting? && c == rows[id].(state := c.state)
                  && Decoded(after) == rows[id := c]
                  && (outcome.AlreadyDeleting? <==> rows[id].state.Deleting?)
                  && (outcome.CancelSpawn? <==> rows[id].state.Spawning?)
                  && c.state == (if outcome.AlreadyDeleting? then rows[id].state else ClusterState.Deleting(at, reason)))
  {
    if id in table && table[id].owner == owner {
      var c := Decoded(table)[id];
      assert SqlGetOwned(table, id, owner) == Ok(Some(c));
      ModifyDecodes(table, id, Transition(c.state, DeleteRequested(at, reason)).value, WorkerUser("", 0, 0));
    }
  }

  datatype DeleteRequest = DeleteRequest(owner: ClientId, reason: DeleteReason, at: Instant)

  /** The replies to delete requests for `id` served one after another. */
  function Replies(table: Table, id: ClusterId, requests: seq<DeleteRequest>)
    : (replies: seq<Result<(Cluster, DeleteOutcome), ClusterError>>)
    ensures |replies| == |requests|
  {
    if requests == [] then []
    else
      var r := requests[0];
      var (after, reply) := DeleteResult(table, id, r.owner, r.reason, r.at);
      [reply] + Replies(after, id, requests[1..])
  }

  lemma {:induction false} OnceDeletingAlwaysDeleting(table: Table, id: ClusterId, requests: seq<DeleteRequest>, k: nat)
    requires Readable(table) && id in table && Decoded(table)[id].state.Deleting? && k < |requests|
    ensures var reply := Replies(table, id, requests)[k];
            reply.Ok? ==> reply.value == (Decoded(table)[id], AlreadyDeleting)
  {
    var r := requests[0];
    DeleteExactly(table, id, r.owner, r.reason, r.at);
    var (after, reply) := DeleteResult(table, id, r.owner, r.reason, r.at);
    assert Decoded(after) == Decoded(table);
    if k == 0 {
    } else {
      OnceDeletingAlwaysDeleting(after, id, requests[1..], k - 1);
    }
  }

  /** However many requests arrive one after another, and whoever sends them, the first one accepted
      decides the time and the reason, and only it is told to do anything. */
  lemma {:induction false} OnlyFirstIsToldToAct(table: Table, id: ClusterId, requests: seq<DeleteRequest>, j: nat, k: nat)
    requires Readable(table) && j < k < |requests|
    requires Replies(table, id, requests)[j].Ok? && Replies(table, id, requests)[k].Ok?
    ensures Replies(table, id, requests)[k].value == (Replies(table, id, requests)[j].value.0, AlreadyDeleting)
  {
    var r := requests[0];
    DeleteExactly(table, id, r.owner, r.reason, r.at);
    var (after, reply) := DeleteResult(table, id, r.owner, r.reason, r.at);
    if j == 0 {
      OnceDeletingAlwaysDeleting(after, id, requests[1..], k - 1);
    } else {
      OnlyFirstIsToldToAct(after, id, requests[1..], j - 1, k - 1);
    }
  }
}
