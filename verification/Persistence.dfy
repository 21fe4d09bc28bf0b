/** The stored form of a cluster: everything but its id and owner, which have columns of their own.
    The mirrors of the live types keep each variant's fields and drop nothing; the requested time
    to live is stored as a count of whole seconds. */
module Persistence {
  import opened Domain

  datatype PersistedPostgres =
    PersistedPostgres(host: string, port: nat, dbname: string, user: string, password: string)

  datatype PersistedConnection =
    | PostgresRow(host: string, port: nat, dbname: string, user: string, password: string)
    | SupabaseRow(apiUrl: string, postgres: PersistedPostgres, anonKey: string, serviceRoleKey: string, jwtSecret: string)

  datatype PersistedState =
    | SpawningRow(startedAt: Instant)
    | ReadyRow(readyAt: Instant, decommissionAt: Instant, connection: PersistedConnection)
    | FailedRow(failedAt: Instant, errorSummary: string)
    | DeletingRow(deletingSince: Instant, reason: DeleteReason)

  datatype PersistedWorker = PersistedWorker(name: string, uid: nat, gid: nat)

  datatype PersistedCluster = PersistedCluster(
    service: ServiceSpec,
    requestedTtlSecs: int,
    requestedAt: Instant,
    state: PersistedState,
    worker: Option<PersistedWorker>,
    slot: nat)

  const SECOND: Duration := 1_000_000_000

  /** Whole seconds of a duration, truncated towards zero. */
  function NumSeconds(d: Duration): int {
    if d >= 0 then d / SECOND else -((-d) / SECOND)
  }

  function Seconds(n: int): Duration {
    n * SECOND
  }

  function ToPersistedPostgres(c: PostgresConnection): PersistedPostgres {
    PersistedPostgres(c.host, c.port, c.dbname, c.user, c.password)
  }

  function FromPersistedPostgres(p: PersistedPostgres): PostgresConnection {
    PostgresConnection(p.host, p.port, p.dbname, p.user, p.password)
  }

  function ToPersistedConnection(info: ConnectionInfo): PersistedConnection {
    match info
    case PostgresInfo(c) => PostgresRow(c.host, c.port, c.dbname, c.user, c.password)
    case SupabaseInfo(url, c, anon, service, jwt) => SupabaseRow(url, ToPersistedPostgres(c), anon, service, jwt)
  }

  function FromPersistedConnection(p: PersistedConnection): ConnectionInfo {
    match p
    case PostgresRow(host, port, dbname, user, password) => PostgresInfo(PostgresConnection(host, port, dbname, user, password))
    case SupabaseRow(url, c, anon, service, jwt) => SupabaseInfo(url, FromPersistedPostgres(c), anon, service, jwt)
  }

  function ToPersistedState(state: ClusterState): PersistedState {
    match state
    case Spawning(startedAt) => SpawningRow(startedAt)
    case Ready(readyAt, decommissionAt, connection) => ReadyRow(readyAt, decommissionAt, ToPersistedConnection(connection))
    case Failed(failedAt, summary) => FailedRow(failedAt, summary)
    case Deleting(since, reason) => DeletingRow(since, reason)
  }

  function FromPersistedState(p: PersistedState): ClusterState {
    match p
    case SpawningRow(startedAt) => Spawning(startedAt)
    case ReadyRow(readyAt, decommissionAt, connection) => Ready(readyAt, decommissionAt, FromPersistedConnection(connection))
    case FailedRow(failedAt, summary) => Failed(failedAt, summary)
    case DeletingRow(since, reason) => Deleting(since, reason)
  }

  function ToPersistedWorker(w: WorkerUser): PersistedWorker {
    PersistedWorker(w.name, w.uid, w.gid)
  }

  function FromPersistedWorker(p: PersistedWorker): WorkerUser {
    WorkerUser(p.name, p.uid, p.gid)
  }

  function ToPersisted(c: Cluster): PersistedCluster {
    PersistedCluster(
      c.service, NumSeconds(c.requestedTtl), c.requestedAt, ToPersistedState(c.state),
      if c.worker.Some? then Some(ToPersistedWorker(c.worker.value)) else None, c.slot)
  }

  function FromPersisted(id: ClusterId, owner: ClientId, p: PersistedCluster): Cluster {
    Cluster(
      id, owner, p.service, Seconds(p.requestedTtlSecs), p.requestedAt, FromPersistedState(p.state),
      if p.worker.Some? then Some(FromPersistedWorker(p.worker.value)) else None, p.slot)
  }

  /** The requested time to live is a whole number of seconds. */
  predicate WholeSeconds(d: Duration) {
    d % SECOND == 0
  }

  /** A cluster as it will be read back: its time to live loses its fraction of a second. */
  function Rounded(c: Cluster): Cluster {
    c.(requestedTtl := Seconds(NumSeconds(c.requestedTtl)))
  }

  lemma SecondsExactly(d: Duration)
    ensures Seconds(NumSeconds(d)) == d <==> WholeSeconds(d)
  {
  }

  /** Storing never lengthens a duration, and shortens it by less than a second, towards zero. */
  lemma RoundingIsShort(d: Duration)
    ensures d >= 0 ==> NumSeconds(d) * 1_000_000_000 <= d < NumSeconds(d) * 1_000_000_000 + 1_000_000_000
    ensures d <= 0 ==> NumSeconds(d) * 1_000_000_000 - 1_000_000_000 < d <= NumSeconds(d) * 1_000_000_000
    ensures Seconds(NumSeconds(d)) == NumSeconds(d) * 1_000_000_000 && WholeSeconds(Seconds(NumSeconds(d)))
  {
  }

  lemma StateRoundTrip(state: ClusterState, row: PersistedState)
    ensures FromPersistedState(ToPersistedState(state)) == state
    ensures ToPersistedState(FromPersistedState(row)) == row
  {
  }

  /** Reading back what was written yields the cluster itself exactly when its time to live is a
      whole number of seconds; in any case nothing but the fraction is lost. */
  lemma RoundTrip(c: Cluster)
    ensures FromPersisted(c.id, c.owner, ToPersisted(c)) == Rounded(c)
    ensures FromPersisted(c.id, c.owner, ToPersisted(c)) == c <==> WholeSeconds(c.requestedTtl)
  {
  }

  /** Each stored field holds the live field of its name. */
  lemma StoredExactly(c: Cluster)
    ensures var p := ToPersisted(c);
            && p.service == c.service && p.requestedAt == c.requestedAt && p.slot == c.slot
            && (c.worker.Some? <==> p.worker.Some?)
            && (c.worker.Some? ==> p.worker.value == PersistedWorker(c.worker.value.name, c.worker.value.uid, c.worker.value.gid))
            && match c.state
               case Spawning(startedAt) => p.state == SpawningRow(startedAt)
               case Failed(failedAt, summary) => p.state == FailedRow(failedAt, summary)
               case Deleting(since, reason) => p.state == DeletingRow(since, reason)
               case Ready(readyAt, decommissionAt, connection) =>
                 && p.state.ReadyRow? && p.state.readyAt == readyAt && p.state.decommissionAt == decommissionAt
                 && match connection
                    case PostgresInfo(d) =>
                      p.state.connection == PostgresRow(d.host, d.port, d.dbname, d.user, d.password)
                    case SupabaseInfo(url, d, anon, service, jwt) =>
                      p.state.connection
                      == SupabaseRow(url, PersistedPostgres(d.host, d.port, d.dbname, d.user, d.password), anon, service, jwt)
  {
  }

  /** Writing back what was read changes nothing, so a read-modify-write touches one field only. */
  lemma WriteBack(id: ClusterId, owner: ClientId, p: PersistedCluster)
    ensures ToPersisted(FromPersisted(id, owner, p)) == p
  {
  }
}
