/** The values the service passes around: ids, clusters, lifecycle states, and the pure
    state machine that every task consults before it writes a row. */
module Domain {

  datatype Option<+T> = None | Some(value: T)

  datatype Result<+T, +E> = Ok(value: T) | Err(error: E)

  /** A ULID is a 128-bit number. */
  type Ulid = n: nat | n < 0x1_00000000_00000000_00000000_00000000

  datatype ClusterId = ClusterId(ulid: Ulid)

  datatype ClientId = ClientId(name: string)

  datatype WorkerUser = WorkerUser(name: string, uid: nat, gid: nat)

  datatype ServiceKind = Postgres | Supabase

  datatype ServiceSpec = ServiceSpec(kind: ServiceKind, pgvector: bool)

  datatype PostgresConnection =
    PostgresConnection(host: string, port: nat, dbname: string, user: string, password: string)

  datatype ConnectionInfo =
    | PostgresInfo(connection: PostgresConnection)
    | SupabaseInfo(apiUrl: string, postgres: PostgresConnection,
                   anonKey: string, serviceRoleKey: string, jwtSecret: string)

  datatype DeleteReason = UserRequested | TtlExpired | SpawnFailed | AdminForced

  /** Instants and durations are whole nanoseconds. */
  type Instant = int

  type Duration = int

  datatype ClusterState =
    | Spawning(startedAt: Instant)
    | Ready(readyAt: Instant, decommissionAt: Instant, connection: ConnectionInfo)
    | Failed(failedAt: Instant, errorSummary: string)
    | Deleting(deletingSince: Instant, reason: DeleteReason)

  datatype ClusterEvent =
    | SpawnSucceeded(readyAt: Instant, decommissionAt: Instant, connection: ConnectionInfo)
    | SpawnFailure(failedAt: Instant, errorSummary: string)
    | DeleteRequested(at: Instant, reason: DeleteReason)

  datatype InvalidTransition = InvalidTransition(from: ClusterState, event: ClusterEvent)

  datatype Cluster = Cluster(
    id: ClusterId,
    owner: ClientId,
    service: ServiceSpec,
    requestedTtl: Duration,
    requestedAt: Instant,
    state: ClusterState,
    worker: Option<WorkerUser>,
    slot: nat)

  /** What a caller of the delete operation must do next. */
  datatype DeleteOutcome = CancelSpawn | StartTeardown | AlreadyDeleting

  function Transition(current: ClusterState, event: ClusterEvent): (r: Result<ClusterState, InvalidTransition>)
  {
    match (current, event)
    case (Spawning(_), SpawnSucceeded(readyAt, decommissionAt, connection)) =>
      Ok(Ready(readyAt, decommissionAt, connection))
    case (Spawning(_), SpawnFailure(failedAt, summary)) =>
      Ok(Failed(failedAt, summary))
    case (Deleting(_, _), DeleteRequested(_, _)) =>
      Ok(current)
    case (_, DeleteRequested(at, reason)) =>
      Ok(Deleting(at, reason))
    case (_, _) =>
      Err(InvalidTransition(current, event))
  }

  function OutcomeOf(before: ClusterState): DeleteOutcome {
    match before
    case Deleting(_, _) => AlreadyDeleting
    case Spawning(_) => CancelSpawn
    case _ => StartTeardown
  }

  /** Which reason, if any, the sweep has for reaping a cluster in `state` at time `now`. */
  function DueForReaping(state: ClusterState, now: Instant, grace: Duration): Option<DeleteReason> {
    match state
    case Ready(_, decommissionAt, _) => if now >= decommissionAt then Some(TtlExpired) else None
    case Failed(failedAt, _) => if now >= failedAt + grace then Some(SpawnFailed) else None
    case _ => None
  }

  /** Position in the order Spawning, Ready, Failed, Deleting; an absent row comes last. */
  function Rank(row: Option<ClusterState>): nat {
    match row
    case Some(Spawning(_)) => 0
    case Some(Ready(_, _, _)) => 1
    case Some(Failed(_, _)) => 2
    case Some(Deleting(_, _)) => 3
    case None => 4
  }

  /** A delete applies to every state and anything else to Spawning only; no event moves a cluster down
      the order, and Deleting, with its time and reason, is never left. */
  lemma TransitionsGoUp(current: ClusterState, event: ClusterEvent)
    ensures var next := Transition(current, event);
            && (next.Ok? <==> event.DeleteRequested? || current.Spawning?)
            && (next.Ok? ==>
                  && Rank(Some(current)) <= Rank(Some(next.value))
                  && (Rank(Some(current)) == Rank(Some(next.value)) <==> current.Deleting?)
                  && (current.Deleting? ==> next.value == current)
                  && (next.value.Deleting? <==> event.DeleteRequested?))
            && (next.Err? ==> next.error.from == current && next.error.event == event)
  {
  }

  /** The state after a sequence of events, those that do not apply being refused. */
  function AfterEvents(start: ClusterState, events: seq<ClusterEvent>): ClusterState {
    if events == [] then start
    else
      var before := AfterEvents(start, events[..|events| - 1]);
      match Transition(before, events[|events| - 1])
      case Ok(next) => next
      case Err(_) => before
  }

  /** Whatever the events, the first delete decides: the state is from then on that delete's. */
  lemma {:induction false} FirstDeleteDecides(start: ClusterState, events: seq<ClusterEvent>, k: nat)
    requires !start.Deleting? && k < |events| && events[k].DeleteRequested?
    requires forall i :: 0 <= i < k ==> !events[i].DeleteRequested?
    ensures AfterEvents(start, events) == Deleting(events[k].at, events[k].reason)
    decreases |events|
  {
    var n := |events| - 1;
    if k < n {
      assert events[..n][k] == events[k];
      FirstDeleteDecides(start, events[..n], k);
    } else {
      NoDeleteNoDeleting(start, events[..n]);
    }
  }

  lemma {:induction false} NoDeleteNoDeleting(start: ClusterState, events: seq<ClusterEvent>)
    requires !start.Deleting? && forall i :: 0 <= i < |events| ==> !events[i].DeleteRequested?
    ensures !AfterEvents(start, events).Deleting?
  {
    if events == [] {
    } else {
      NoDeleteNoDeleting(start, events[..|events| - 1]);
    }
  }
}
