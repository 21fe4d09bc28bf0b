/** The durable repository over a SQLite table of JSON blobs, the simple in-memory map it should
    agree with, and exactly where the two agree. */
module Repository {
  import opened Domain
  import opened Allocator
  import opened Persistence

  type U32 = n: nat | n < 0x1_0000_0000

  const U32_MAX: U32 := 0xFFFF_FFFF

  function SaturatingU32(n: nat): U32 {
    if n <= U32_MAX then n else U32_MAX
  }

  datatype RepositoryError = Db | Serde | CorruptRow

  datatype InsertOutcome = Inserted(slot: nat) | QuotaExceeded(currentCount: nat)

  /** The JSON column: a stored cluster, or text that does not parse as one. */
  datatype Blob = Json(value: PersistedCluster) | Garbled

  datatype Row = Row(owner: ClientId, blob: Blob)

  type Table = map<ClusterId, Row>

  type Rows = map<ClusterId, Cluster>

  function FromRow(id: ClusterId, row: Row): Result<Cluster, RepositoryError> {
    match row.blob
    case Json(value) => Ok(FromPersisted(id, row.owner, value))
    case Garbled => Err(Serde)
  }

  function IdsOf(table: Table, owner: ClientId): set<ClusterId> {
    set id | id in table && table[id].owner == owner
  }

  /** Slots recorded by those of `ids` that parse; the others are passed over. */
  function StoredSlots(table: Table, ids: set<ClusterId>): set<nat> {
    set id | id in ids && id in table && table[id].blob.Json? :: table[id].blob.value.slot
  }

  ghost predicate Readable(table: Table) {
    forall id :: id in table ==> table[id].blob.Json?
  }

  /** The clusters a readable table stands for. */
  function Decoded(table: Table): Rows {
    map id | id in table && table[id].blob.Json? :: FromPersisted(id, table[id].owner, table[id].blob.value)
  }

  function OwnedBy(rows: Rows, owner: ClientId): Rows {
    map id | id in rows && rows[id].owner == owner :: rows[id]
  }

  // ----- what each operation does to the table -----

  function SqlInsert(table: Table, c: Cluster, limit: U32): (Table, Result<InsertOutcome, RepositoryError>) {
    var ids := IdsOf(table, c.owner);
    var count := SaturatingU32(|ids|);
    if count >= limit then (table, Ok(QuotaExceeded(count)))
    else
      match FirstFree(StoredSlots(table, ids), 0, limit)
      case None => (table, Err(CorruptRow))
      case Some(slot) =>
        if c.id in table then (table, Err(Db))
        else (table[c.id := Row(c.owner, Json(ToPersisted(c.(slot := slot))))], Ok(Inserted(slot)))
  }

  /** Reads the blob, changes it with `edit`, and writes it back. */
  function SqlModify(table: Table, id: ClusterId, edit: PersistedCluster -> PersistedCluster): (Table, Result<(), RepositoryError>) {
    if id !in table then (table, Err(Db))
    else
      match table[id].blob
      case Garbled => (table, Err(Serde))
      case Json(value) => (table[id := table[id].(blob := Json(edit(value)))], Ok(()))
  }

  function SqlUpdateState(table: Table, id: ClusterId, state: ClusterState): (Table, Result<(), RepositoryError>) {
    SqlModify(table, id, (p: PersistedCluster) => p.(state := ToPersistedState(state)))
  }

  function SqlSetWorker(table: Table, id: ClusterId, worker: WorkerUser): (Table, Result<(), RepositoryError>) {
    SqlModify(table, id, (p: PersistedCluster) => p.(worker := Some(ToPersistedWorker(worker))))
  }

  function SqlGetAny(table: Table, id: ClusterId): Result<Option<Cluster>, RepositoryError> {
    if id !in table then Ok(None)
    else
      match FromRow(id, table[id])
      case Ok(c) => Ok(Some(c))
      case Err(e) => Err(e)
  }

  function SqlGetOwned(table: Table, id: ClusterId, owner: ClientId): Result<Option<Cluster>, RepositoryError> {
    if id in table && table[id].owner == owner then SqlGetAny(table, id) else Ok(None)
  }

  function SqlList(table: Table, ids: set<ClusterId>): Result<Rows, RepositoryError> {
    if forall id :: id in ids && id in table ==> table[id].blob.Json?
    then Ok(map id | id in ids && id in Decoded(table) :: Decoded(table)[id])
    else Err(Serde)
  }

  // ----- the simple map -----

  function MemInsert(rows: Rows, c: Cluster, limit: U32): (Rows, Result<InsertOutcome, RepositoryError>) {
    var count := SaturatingU32(|RowsOf(rows, c.owner)|);
    if count >= limit then (rows, Ok(QuotaExceeded(count)))
    else
      match FirstFree(UsedSlots(rows, c.owner), 0, limit)
      case None => (rows, Err(CorruptRow))
      case Some(slot) => (rows[c.id := c.(slot := slot)], Ok(Inserted(slot)))
  }

  function MemUpdateState(rows: Rows, id: ClusterId, state: ClusterState): Rows {
    if id in rows then rows[id := rows[id].(state := state)] else rows
  }

  function MemSetWorker(rows: Rows, id: ClusterId, worker: WorkerUser): Rows {
    if id in rows then rows[id := rows[id].(worker := Some(worker))] else rows
  }

  function MemGetAny(rows: Rows, id: ClusterId): Option<Cluster> {
    if id in rows then Some(rows[id]) else None
  }

  function MemGetOwned(rows: Rows, id: ClusterId, owner: ClientId): Option<Cluster> {
    if id in rows && rows[id].owner == owner then Some(rows[id]) else None
  }

  // ----- the two repositories -----

  /** `found` lists `ids`, each once, in some order. */
  ghost predicate Enumerates(found: seq<ClusterId>, ids: set<ClusterId>) {
    && |found| == |ids|
    && (forall i, j :: 0 <= i < j < |found| ==> found[i] != found[j])
    && (forall id :: id in ids <==> id in found)
  }

  /** `list` holds the clusters of `rows`, each once, in some order. */
  ghost predicate Listing(list: seq<Cluster>, rows: Rows) {
    && |list| == |rows|
    && (forall i :: 0 <= i < |list| ==> list[i].id in rows && rows[list[i].id] == list[i])
    && (forall i, j :: 0 <= i < j < |list| ==> list[i].id != list[j].id)
  }

  /** The rows a query selects, in no particular order. */
  method Query(ids: set<ClusterId>) returns (found: seq<ClusterId>)
    ensures Enumerates(found, ids)
  {
    found := [];
    var rest := ids;
    while rest != {}
      invariant rest <= ids && Enumerates(found, ids - rest)
      decreases |rest|
    {
      var id :| id in rest;
      OneFound(found, ids - rest, id);
      assert ids - (rest - {id}) == (ids - rest) + {id};
      rest := rest - {id};
      found := found + [id];
    }
    assert ids - rest == ids;
  }

  lemma OneFound(found: seq<ClusterId>, ids: set<ClusterId>, id: ClusterId)
    requires Enumerates(found, ids) && id !in ids
    ensures Enumerates(found + [id], ids + {id})
  {
  }

  /** The smallest slot below `limit` that is not in use. */
  method FindFreeSlot(used: set<nat>, limit: nat) returns (slot: Option<nat>)
    ensures slot == FirstFree(used, 0, limit)
  {
    var k := 0;
    while k < limit && k in used
      invariant k <= limit && FirstFree(used, 0, limit) == FirstFree(used, k, limit)
    {
      k := k + 1;
    }
    slot := if k < limit then Some(k) else None;
  }

  class SqliteRepository {
    var table: Table

    constructor ()
      ensures table == map[]
    {
      table := map[];
    }

    method TryInsertIfUnderQuota(c: Cluster, limit: U32) returns (outcome: Result<InsertOutcome, RepositoryError>)
      modifies this
      ensures (table, outcome) == SqlInsert(old(table), c, limit)
    {
      var ids := IdsOf(table, c.owner);
      var existing := Query(ids);
      var count := SaturatingU32(|existing|);
      if count >= limit {
        return Ok(QuotaExceeded(count));
      }
      var used := {};
      for i := 0 to |existing|
        invariant table == old(table) && used == StoredSlots(table, Prefix(existing, i))
      {
        assert existing[i] in ids;
        ExtendPrefix(table, existing, i);
        match table[existing[i]].blob {
          case Json(value) => used := used + {value.slot};
          case Garbled =>
        }
      }
      assert Prefix(existing, |existing|) == ids;
      var free := FindFreeSlot(used, limit);
      match free {
        case None => outcome := Err(CorruptRow);
        case Some(slot) =>
          if c.id in table {
            outcome := Err(Db);
          } else {
            table := table[c.id := Row(c.owner, Json(ToPersisted(c.(slot := slot))))];
            outcome := Ok(Inserted(slot));
          }
      }
    }

    method GetAny(id: ClusterId) returns (found: Result<Option<Cluster>, RepositoryError>)
      ensures found == SqlGetAny(table, id)
    {
      if id !in table {
        return Ok(None);
      }
      match FromRow(id, table[id]) {
        case Ok(c) => found := Ok(Some(c));
        case Err(e) => found := Err(e);
      }
    }

    method GetOwned(id: ClusterId, owner: ClientId) returns (found: Result<Option<Cluster>, RepositoryError>)
      ensures found == SqlGetOwned(table, id, owner)
    {
      if id in table && table[id].owner == owner {
        found := GetAny(id);
      } else {
        found := Ok(None);
      }
    }

    /** Reads rows until one does not parse. */
    method List(ids: set<ClusterId>) returns (list: Result<seq<Cluster>, RepositoryError>)
      requires ids <= table.Keys
      ensures SqlList(table, ids).Err? ==> list == Err(SqlList(table, ids).error)
      ensures SqlList(table, ids).Ok? ==> list.Ok? && Listing(list.value, SqlList(table, ids).value)
    {
      var found := Query(ids);
      var clusters: seq<Cluster> := [];
      for i := 0 to |found|
        invariant |clusters| == i
        invariant forall k :: 0 <= k < i ==> FromRow(found[k], table[found[k]]) == Ok(clusters[k])
      {
        match FromRow(found[i], table[found[i]]) {
          case Ok(c) => clusters := clusters + [c];
          case Err(e) => return Err(e);
        }
      }
      ghost var rows := SqlList(table, ids).value;
      assert rows.Keys == ids;
      assert |rows| == |rows.Keys|;
      list := Ok(clusters);
    }

    method ListByOwner(owner: ClientId) returns (list: Result<seq<Cluster>, RepositoryError>)
      ensures var spec := SqlList(table, IdsOf(table, owner));
              if spec.Err? then list == Err(spec.error) else list.Ok? && Listing(list.value, spec.value)
    {
      list := List(IdsOf(table, owner));
    }

    method ListAll() returns (list: Result<seq<Cluster>, RepositoryError>)
      ensures var spec := SqlList(table, table.Keys);
              if spec.Err? then list == Err(spec.error) else list.Ok? && Listing(list.value, spec.value)
    {
      list := List(table.Keys);
    }

    method UpdateState(id: ClusterId, state: ClusterState) returns (outcome: Result<(), RepositoryError>)
      modifies this
      ensures (table, outcome) == SqlUpdateState(old(table), id, state)
    {
      if id !in table {
        return Err(Db);
      }
      match table[id].blob {
        case Garbled => outcome := Err(Serde);
        case Json(value) =>
          table := table[id := table[id].(blob := Json(value.(state := ToPersistedState(state))))];
          outcome := Ok(());
      }
    }

    method SetWorker(id: ClusterId, worker: WorkerUser) returns (outcome: Result<(), RepositoryError>)
      modifies this
      ensures (table, outcome) == SqlSetWorker(old(table), id, worker)
    {
      if id !in table {
        return Err(Db);
      }
      match table[id].blob {
        case Garbled => outcome := Err(Serde);
        case Json(value) =>
          table := table[id := table[id].(blob := Json(value.(worker := Some(ToPersistedWorker(worker)))))];
          outcome := Ok(());
      }
    }

    method Delete(id: ClusterId)
      modifies this
      ensures table == old(table) - {id}
    {
      table := table - {id};
    }
  }

  function Prefix(ids: seq<ClusterId>, n: nat): set<ClusterId>
    requires n <= |ids|
  {
    set k | 0 <= k < n :: ids[k]
  }

  lemma ExtendPrefix(table: Table, ids: seq<ClusterId>, n: nat)
    requires n < |ids| && ids[n] in table
    ensures Prefix(ids, n + 1) == Prefix(ids, n) + {ids[n]}
    ensures StoredSlots(table, Prefix(ids, n + 1))
            == StoredSlots(table, Prefix(ids, n))
               + (if table[ids[n]].blob.Json? then {table[ids[n]].blob.value.slot} else {})
  {
  }

  class InMemoryRepository {
    var rows: Rows

    constructor ()
      ensures rows == map[]
    {
      rows := map[];
    }

    method TryInsertIfUnderQuota(c: Cluster, limit: U32) returns (outcome: Result<InsertOutcome, RepositoryError>)
      modifies this
      ensures (rows, outcome) == MemInsert(old(rows), c, limit)
    {
      var count := SaturatingU32(|RowsOf(rows, c.owner)|);
      if count >= limit {
        return Ok(QuotaExceeded(count));
      }
      var free := FindFreeSlot(UsedSlots(rows, c.owner), limit);
      match free {
        case None => outcome := Err(CorruptRow);
        case Some(slot) =>
          rows := rows[c.id := c.(slot := slot)];
          outcome := Ok(Inserted(slot));
      }
    }

    method UpdateState(id: ClusterId, state: ClusterState)
      modifies this
      ensures rows == MemUpdateState(old(rows), id, state)
    {
      if id in rows {
        rows := rows[id := rows[id].(state := state)];
      }
    }

    method SetWorker(id: ClusterId, worker: WorkerUser)
      modifies this
      ensures rows == MemSetWorker(old(rows), id, worker)
    {
      if id in rows {
        rows := rows[id := rows[id].(worker := Some(worker))];
      }
    }

    method Delete(id: ClusterId)
      modifies this
      ensures rows == old(rows) - {id}
    {
      rows := rows - {id};
    }
  }
}
