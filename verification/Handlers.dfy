/** What the create and delete requests set in motion. */
module Handlers {
  import opened Domain
  import opened Persistence
  import opened Repository
  import opened ClusterService
  import opened TaskRegistry

  /** The service, the registry, and the background tasks started so far. */
  class AppState {
    const service: ClusterService
    const registry: Registry
    var spawns: seq<(Cluster, CancellationToken)>
    var teardowns: seq<Cluster>

    constructor (service: ClusterService, registry: Registry)
      ensures this.service == service && this.registry == registry && spawns == [] && teardowns == []
    {
      this.service := service;
      this.registry := registry;
      spawns, teardowns := [], [];
    }

    /** Registers the token first, so that a delete arriving at once can reach the new task. */
    method LaunchSpawn(cluster: Cluster)
      requires registry.Valid()
      modifies this`spawns, registry
      ensures registry.Valid() && registry.View() == old(registry.View())[cluster.id := false]
      ensures cluster.id in registry.tokens && spawns == old(spawns) + [(cluster, registry.tokens[cluster.id])]
      ensures fresh(registry.Tokens() - old(registry.Tokens()))
    {
      var cancel := registry.Register(cluster.id);
      spawns := spawns + [(cluster, cancel)];
    }

    /** A task is started exactly if a row was inserted, on the cluster as inserted. */
    method CreateCluster(owner: ClientId, spec: ServiceSpec, ttlSecs: int, newId: ClusterId, now: Instant)
      returns (created: Result<Cluster, ClusterError>)
      requires registry.Valid()
      modifies this`spawns, registry, service.repository
      ensures registry.Valid()
      ensures (service.repository.table, created)
              == CreateResult(service.limits, old(service.repository.table),
                              NewCluster(newId, owner, spec, Seconds(ttlSecs), now))
      ensures created.Ok? ==>
                && registry.View() == old(registry.View())[newId := false]
                && fresh(registry.Tokens() - old(registry.Tokens()))
                && newId in registry.tokens && spawns == old(spawns) + [(created.value, registry.tokens[newId])]
      ensures created.Err? ==> registry.View() == old(registry.View()) && spawns == old(spawns)
    {
      created := service.Create(owner, spec, Seconds(ttlSecs), newId, now);
      if created.Ok? {
        LaunchSpawn(created.value);
      }
    }

    /** Cancels the spawn in flight, or starts a teardown, or leaves the cluster to whoever has it. */
    method DeleteCluster(id: ClusterId, owner: ClientId, now: Instant) returns (accepted: bool)
      requires registry.Valid()
      modifies this`teardowns, registry.Tokens(), service.repository
      ensures registry.Valid() && registry.tokens == old(registry.tokens)
      ensures var (after, deleted) := DeleteResult(old(service.repository.table), id, owner, UserRequested, now);
              && service.repository.table == after
              && (accepted <==> deleted.Ok?)
              && (registry.View() == if deleted.Ok? && deleted.value.1.CancelSpawn? && id in old(registry.View())
                                     then old(registry.View())[id := true] else old(registry.View()))
              && (teardowns == if deleted.Ok? && deleted.value.1.StartTeardown?
                               then old(teardowns) + [deleted.value.0] else old(teardowns))
    {
      var deleted := service.RequestDelete(id, owner, UserRequested, now);
      match deleted {
        case Err(_) => accepted := false;
        case Ok((cluster, outcome)) =>
          match outcome {
            case CancelSpawn => registry.Cancel(id);
            case StartTeardown => teardowns := teardowns + [cluster];
            case AlreadyDeleting =>
          }
          accepted := true;
      }
    }
  }

  /** A delete right after a create, before the task has done anything, is seen by the token the task
      was given; the task will tear down, and no teardown task is started beside it. */
  method CreateThenDelete(state: AppState, owner: ClientId, spec: ServiceSpec, ttlSecs: int, id: ClusterId, now: Instant)
    returns (created: Result<Cluster, ClusterError>, accepted: bool)
    requires state.registry.Valid() && Readable(state.service.repository.table)
    modifies state, state.registry, state.registry.Tokens(), state.service.repository
    ensures created.Ok? ==>
              && accepted && |state.spawns| == |old(state.spawns)| + 1
              && var (cluster, token) := state.spawns[|old(state.spawns)|];
              && cluster == created.value && token.cancelled && state.teardowns == old(state.teardowns)
              && id in Decoded(state.service.repository.table)
              && Decoded(state.service.repository.table)[id].state == Deleting(now, UserRequested)
  {
    CreateExactly(state.service.limits, state.service.repository.table, NewCluster(id, owner, spec, Seconds(ttlSecs), now));
    created := state.CreateCluster(owner, spec, ttlSecs, id, now);
    if created.Err? {
      return created, false;
    }
    DeleteExactly(state.service.repository.table, id, owner, UserRequested, now);
    accepted := state.DeleteCluster(id, owner, now);
  }
}
