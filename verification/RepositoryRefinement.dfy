/** The table refines the map: operation by operation, with the exact conditions under which the two
    agree, and over whole histories; and what every history keeps about slots and quotas. */
module RepositoryRefinement {
  import opened Domain
  import opened Allocator
  import opened Persistence
  import opened Repository

  datatype Op =
    | Insert(cluster: Cluster, limit: U32)
    | UpdateState(id: ClusterId, state: ClusterState)
    | SetWorker(id: ClusterId, worker: WorkerUser)
    | Delete(id: ClusterId)
    | GetAny(id: ClusterId)
    | GetOwned(id: ClusterId, owner: ClientId)
    | ListByOwner(owner: ClientId)
    | ListAll

  datatype Reply =
    | Inserting(outcome: Result<InsertOutcome, RepositoryError>)
    | Writing(written: Result<(), RepositoryError>)
    | Reading(found: Result<Option<Cluster>, RepositoryError>)
    | Listed(rows: Result<Rows, RepositoryError>)

  function SqlStep(table: Table, op: Op): (Table, Reply) {
    match op
    case Insert(c, limit) => var r := SqlInsert(table, c, limit); (r.0, Inserting(r.1))
    case UpdateState(id, state) => var r := SqlUpdateState(table, id, state); (r.0, Writing(r.1))
    case SetWorker(id, worker) => var r := SqlSetWorker(table, id, worker); (r.0, Writing(r.1))
    case Delete(id) => (table - {id}, Writing(Ok(())))
    case GetAny(id) => (table, Reading(SqlGetAny(table, id)))
    case GetOwned(id, owner) => (table, Reading(SqlGetOwned(table, id, owner)))
    case ListByOwner(owner) => (table, Listed(SqlList(table, IdsOf(table, owner))))
    case ListAll => (table, Listed(SqlList(table, table.Keys)))
  }

  function MemStep(rows: Rows, op: Op): (Rows, Reply) {
    match op
    case Insert(c, limit) => var r := MemInsert(rows, c, limit); (r.0, Inserting(r.1))
    case UpdateState(id, state) => (MemUpdateState(rows, id, state), Writing(Ok(())))
    case SetWorker(id, worker) => (MemSetWorker(rows, id, worker), Writing(Ok(())))
    case Delete(id) => (rows - {id}, Writing(Ok(())))
    case GetAny(id) => (rows, Reading(Ok(MemGetAny(rows, id))))
    case GetOwned(id, owner) => (rows, Reading(Ok(MemGetOwned(rows, id, owner))))
    case ListByOwner(owner) => (rows, Listed(Ok(OwnedBy(rows, owner))))
    case ListAll => (rows, Listed(Ok(rows)))
  }

  // ----- one operation -----

  lemma DecodedOwners(table: Table, owner: ClientId)
    requires Readable(table)
    ensures RowsOf(Decoded(table), owner) == IdsOf(table, owner)
    ensures UsedSlots(Decoded(table), owner) == StoredSlots(table, IdsOf(table, owner))
  {
  }

  /** Slots recorded in a table number at most its rows, garbled ones included. */
  lemma {:induction false} FewStoredSlots(table: Table, ids: set<ClusterId>)
    ensures |StoredSlots(table, ids)| <= |ids|
    decreases ids
  {
    if ids == {} {
    } else {
      var id :| id in ids;
      FewStoredSlots(table, ids - {id});
      assert StoredSlots(table, ids)
             == StoredSlots(table, ids - {id})
                + (if id in table && table[id].blob.Json? then {table[id].blob.value.slot} else {});
    }
  }

  /** The error for a missing free slot never occurs, whatever the table holds: an insert under
      quota of a fresh id succeeds with the smallest slot none of the owner's readable rows has. */
  lemma InsertFindsSmallestSlot(table: Table, c: Cluster, limit: U32)
    ensures var (after, outcome) := SqlInsert(table, c, limit);
            && (outcome == Ok(QuotaExceeded(SaturatingU32(|IdsOf(table, c.owner)|))) <==> |IdsOf(table, c.owner)| >= limit)
            && (outcome == Err(Db) <==> |IdsOf(table, c.owner)| < limit && c.id in table)
            && outcome != Err(CorruptRow)
            && (outcome.Ok? && outcome.value.Inserted? ==>
                  var slot := outcome.value.slot;
                  && slot < limit && slot !in StoredSlots(table, IdsOf(table, c.owner))
                  && (forall k :: 0 <= k < slot ==> k in StoredSlots(table, IdsOf(table, c.owner)))
                  && after == table[c.id := Row(c.owner, Json(ToPersisted(c.(slot := slot))))])
            && (!(outcome.Ok? && outcome.value.Inserted?) ==> after == table)
  {
    var ids := IdsOf(table, c.owner);
    if |ids| < limit {
      FewStoredSlots(table, ids);
      UnderQuotaHasFreeSlot(StoredSlots(table, ids), limit);
    }
  }

  /** What the table answers, garbled rows included: absent rows are absent, other people's rows too, a
      garbled blob is an error to whoever reads or rewrites it, and so is a list that contains one. */
  lemma AnswersExactly(table: Table, id: ClusterId, owner: ClientId, state: ClusterState, worker: WorkerUser)
    ensures id !in table ==>
              && SqlGetAny(table, id) == Ok(None) && SqlGetOwned(table, id, owner) == Ok(None)
              && SqlUpdateState(table, id, state) == (table, Err(Db)) && SqlSetWorker(table, id, worker) == (table, Err(Db))
    ensures id in table && table[id].blob.Garbled? ==>
              && SqlGetAny(table, id) == Err(Serde)
              && SqlGetOwned(table, id, owner) == (if table[id].owner == owner then Err(Serde) else Ok(None))
              && SqlUpdateState(table, id, state) == (table, Err(Serde)) && SqlSetWorker(table, id, worker) == (table, Err(Serde))
    ensures id in table && table[id].blob.Json? ==>
              && SqlGetAny(table, id) == Ok(Some(FromPersisted(id, table[id].owner, table[id].blob.value)))
              && SqlGetOwned(table, id, owner)
                 == (if table[id].owner == owner then Ok(Some(FromPersisted(id, owner, table[id].blob.value))) else Ok(None))
    ensures SqlList(table, table.Keys).Err? <==> exists d :: d in table && table[d].blob.Garbled?
    ensures SqlList(table, IdsOf(table, owner)).Err? <==>
              exists d :: d in table && table[d].owner == owner && table[d].blob.Garbled?
    ensures SqlList(table, table.Keys).Err? ==> SqlList(table, table.Keys) == Err(Serde)
    ensures SqlList(table, IdsOf(table, owner)).Ok? ==>
              var rows := SqlList(table, IdsOf(table, owner)).value;
              && (id in rows <==> id in table && table[id].owner == owner)
              && (id in rows ==> table[id].blob.Json? && rows[id] == FromPersisted(id, owner, table[id].blob.value))
    ensures SqlList(table, table.Keys).Ok? ==>
              var rows := SqlList(table, table.Keys).value;
              && (id in rows <==> id in table)
              && (id in rows ==> table[id].blob.Json? && rows[id] == FromPersisted(id, table[id].owner, table[id].blob.value))
  {
  }

  lemma DecodedInsert(table: Table, c: Cluster)
    requires Readable(table)
    ensures Decoded(table[c.id := Row(c.owner, Json(ToPersisted(c)))]) == Decoded(table)[c.id := Rounded(c)]
  {
  }

  /** Under which circumstances the table and the map give the same answer and end in the same rows. */
  predicate Agrees(table: Table, op: Op) {
    match op
    case Insert(c, limit) =>
      |IdsOf(table, c.owner)| < limit ==> c.id !in table && WholeSeconds(c.requestedTtl)
    case UpdateState(id, _) => id in table
    case SetWorker(id, _) => id in table
    case _ => true
  }

  ghost predicate SameAnswer(table: Table, op: Op) {
    && Decoded(SqlStep(table, op).0) == MemStep(Decoded(table), op).0
    && SqlStep(table, op).1 == MemStep(Decoded(table), op).1
  }

  lemma InsertAgrees(table: Table, c: Cluster, limit: U32)
    requires Readable(table)
    ensures SameAnswer(table, Insert(c, limit)) <==> Agrees(table, Insert(c, limit))
  {
    InsertFindsSmallestSlot(table, c, limit);
    DecodedOwners(table, c.owner);
    if |IdsOf(table, c.owner)| < limit {
      UnderQuotaHasFreeSlot(StoredSlots(table, IdsOf(table, c.owner)), limit) by {
        FewStoredSlots(table, IdsOf(table, c.owner));
      }
      if c.id !in table {
        var placed := c.(slot := FirstFree(StoredSlots(table, IdsOf(table, c.owner)), 0, limit).value);
        DecodedInsert(table, placed);
        SecondsExactly(c.requestedTtl);
        assert Decoded(table)[c.id := Rounded(placed)][c.id] == Rounded(placed);
        assert Decoded(table)[c.id := placed][c.id] == placed;
      }
    }
  }

  /** A rewrite of one field of the blob is a rewrite of that field of the cluster. */
  lemma ModifyDecodes(table: Table, id: ClusterId, state: ClusterState, worker: WorkerUser)
    requires Readable(table)
    ensures Decoded(SqlUpdateState(table, id, state).0) == MemUpdateState(Decoded(table), id, state)
    ensures Decoded(SqlSetWorker(table, id, worker).0) == MemSetWorker(Decoded(table), id, worker)
  {
  }

  lemma ListAgrees(table: Table, owner: ClientId)
    requires Readable(table)
    ensures SqlList(table, IdsOf(table, owner)) == Ok(OwnedBy(Decoded(table), owner))
    ensures SqlList(table, table.Keys) == Ok(Decoded(table))
  {
    assert (map id | id in IdsOf(table, owner) && id in Decoded(table) :: Decoded(table)[id]) == OwnedBy(Decoded(table), owner);
    assert (map id | id in table.Keys && id in Decoded(table) :: Decoded(table)[id]) == Decoded(table);
  }

  /** On a table without garbled rows an operation answers as it does on the map and commutes with
      decoding if and only if ids are fresh, updated rows exist and times to live are whole seconds. */
  lemma StepAgreesExactly(table: Table, op: Op)
    requires Readable(table)
    ensures SameAnswer(table, op) <==> Agrees(table, op)
    ensures Readable(SqlStep(table, op).0)
  {
    match op {
      case Insert(c, limit) => InsertAgrees(table, c, limit);
      case UpdateState(id, state) => ModifyDecodes(table, id, state, WorkerUser("", 0, 0));
      case SetWorker(id, worker) => ModifyDecodes(table, id, Spawning(0), worker);
      case Delete(id) => assert Decoded(table - {id}) == Decoded(table) - {id};
      case ListByOwner(owner) => ListAgrees(table, owner);
      case ListAll => ListAgrees(table, ClientId(""));
      case _ =>
    }
  }

  /** Even where the answers differ, the decoded rows take a step of the map, that of the rounded
      cluster, or stay as they are. */
  lemma StepIsMapStep(table: Table, op: Op)
    requires Readable(table)
    ensures var after := Decoded(SqlStep(table, op).0);
            || after == Decoded(table)
            || after == MemStep(Decoded(table), op).0
            || (op.Insert? && after == MemStep(Decoded(table), Insert(Rounded(op.cluster), op.limit)).0)
  {
    StepAgreesExactly(table, op);
    match op {
      case Insert(c, limit) =>
        InsertFindsSmallestSlot(table, c, limit);
        DecodedOwners(table, c.owner);
        var outcome := SqlInsert(table, c, limit).1;
        if outcome.Ok? && outcome.value.Inserted? {
          var placed := c.(slot := outcome.value.slot);
          DecodedInsert(table, placed);
          assert Rounded(placed) == Rounded(c).(slot := outcome.value.slot);
        }
      case UpdateState(id, state) => ModifyDecodes(table, id, state, WorkerUser("", 0, 0));
      case SetWorker(id, worker) => ModifyDecodes(table, id, Spawning(0), worker);
      case _ =>
    }
  }

  // ----- histories -----

  function SqlRun(table: Table, ops: seq<Op>): (Table, seq<Reply>) {
    if ops == [] then (table, [])
    else
      var (before, replies) := SqlRun(table, ops[..|ops| - 1]);
      var (after, reply) := SqlStep(before, ops[|ops| - 1]);
      (after, replies + [reply])
  }

  function MemRun(rows: Rows, ops: seq<Op>): (Rows, seq<Reply>) {
    if ops == [] then (rows, [])
    else
      var (before, replies) := MemRun(rows, ops[..|ops| - 1]);
      var (after, reply) := MemStep(before, ops[|ops| - 1]);
      (after, replies + [reply])
  }

  /** Every operation of the history meets its condition when its turn comes. */
  ghost predicate AllAgree(table: Table, ops: seq<Op>) {
    ops != [] ==>
      AllAgree(table, ops[..|ops| - 1]) && Agrees(SqlRun(table, ops[..|ops| - 1]).0, ops[|ops| - 1])
  }

  /** Over any history of agreeing operations the two repositories are indistinguishable. */
  lemma {:induction false} HistoriesAgree(table: Table, ops: seq<Op>)
    requires Readable(table) && AllAgree(table, ops)
    ensures Decoded(SqlRun(table, ops).0) == MemRun(Decoded(table), ops).0
    ensures SqlRun(table, ops).1 == MemRun(Decoded(table), ops).1
    ensures Readable(SqlRun(table, ops).0)
  {
    if ops == [] {
    } else {
      HistoriesAgree(table, ops[..|ops| - 1]);
      StepAgreesExactly(SqlRun(table, ops[..|ops| - 1]).0, ops[|ops| - 1]);
    }
  }

  // ----- slots and quotas over histories -----

  ghost predicate LimitsAtMost(ops: seq<Op>, bound: nat) {
    forall i :: 0 <= i < |ops| && ops[i].Insert? ==> ops[i].limit <= bound
  }

  lemma MemKeepsSlots(rows: Rows, op: Op, bound: nat)
    requires SlotsDistinct(rows) && SlotsBelow(rows, bound) && (op.Insert? ==> op.limit <= bound)
    ensures SlotsDistinct(MemStep(rows, op).0) && SlotsBelow(MemStep(rows, op).0, bound)
  {
  }

  /** From an empty table, after any history whatever (ids reused, rows missing, limits changing from
      call to call), no two rows of an owner share a slot, slots stay below the largest limit used,
      and no owner has more rows than that. */
  lemma {:induction false} HistoriesKeepSlots(ops: seq<Op>, bound: nat, owner: ClientId)
    requires LimitsAtMost(ops, bound)
    ensures var table := SqlRun(map[], ops).0;
            && Readable(table)
            && SlotsDistinct(Decoded(table)) && SlotsBelow(Decoded(table), bound)
            && |IdsOf(table, owner)| <= bound
  {
    var table := SqlRun(map[], ops).0;
    if ops == [] {
      assert IdsOf(table, owner) == {};
    } else {
      var last := ops[|ops| - 1];
      var before := SqlRun(map[], ops[..|ops| - 1]).0;
      HistoriesKeepSlots(ops[..|ops| - 1], bound, owner);
      StepAgreesExactly(before, last);
      StepIsMapStep(before, last);
      MemKeepsSlots(Decoded(before), last, bound);
      if last.Insert? {
        MemKeepsSlots(Decoded(before), Insert(Rounded(last.cluster), last.limit), bound);
      }
      DecodedOwners(table, owner);
      QuotaFromSlots(Decoded(table), owner, bound);
    }
  }
}
