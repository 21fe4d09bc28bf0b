/** The container backends do what the protocol says of them: a spawn makes the planned resources in their
    order, and a teardown, wherever it stops, is one reply of the protocol's backend call. */
module BackendSteps {
  import opened Domain
  import opened Lifecycle
  import opened TeardownTask
  import opened Names
  import opened HealthWait
  import opened Backends

  /** The runtime holds exactly the given resources, each under its name. */
  ghost predicate Holds(containers: set<string>, networks: set<string>, res: set<Resource>) {
    && (forall r :: r in res ==> Known(r.name))
    && containers == (set r | r in res && r.name.Container? :: RuntimeName(r.id, r.name))
    && networks == (set r | r in res && r.name.Network? :: RuntimeName(r.id, r.name))
  }

  /** The first `n` resources planned for a cluster. */
  function Planned(c: Cluster, n: nat): set<Resource>
    requires n <= |Plan(c.service.kind)|
  {
    set i | 0 <= i < n :: Resource(c.id, Plan(c.service.kind)[i], AccountName(c), c.slot)
  }

  /** Only resources of its own kind are recorded for a cluster. */
  ghost predicate OfItsKind(res: set<Resource>, c: Cluster) {
    forall r :: r in res && r.id == c.id ==> r.name in Plan(c.service.kind)
  }

  lemma OneMorePlanned(containers: set<string>, networks: set<string>, res: set<Resource>, c: Cluster, n: nat)
    requires n < |Plan(c.service.kind)| && Holds(containers, networks, res + Planned(c, n))
    ensures var name := Plan(c.service.kind)[n];
            Holds(if name.Container? then containers + {RuntimeName(c.id, name)} else containers,
                  if name.Network? then networks + {RuntimeName(c.id, name)} else networks, res + Planned(c, n + 1))
  {
    PlansAreKnown(c.service.kind);
    var made := Resource(c.id, Plan(c.service.kind)[n], AccountName(c), c.slot);
    assert Planned(c, n + 1) == Planned(c, n) + {made};
    assert res + Planned(c, n + 1) == (res + Planned(c, n)) + {made};
    OneMoreHeld(containers, networks, res + Planned(c, n), made);
  }

  lemma OneMoreHeld(containers: set<string>, networks: set<string>, res: set<Resource>, made: Resource)
    requires Holds(containers, networks, res) && Known(made.name)
    ensures Holds(if made.name.Container? then containers + {RuntimeName(made.id, made.name)} else containers,
                  if made.name.Network? then networks + {RuntimeName(made.id, made.name)} else networks, res + {made})
  {
    assert made in res + {made};
  }

  /** The plan of a stack is its network and then its containers in spawn order. */
  lemma PlanIsStack(c: Cluster)
    requires c.service.kind.Supabase?
    ensures var plan, specs := Plan(c.service.kind), BuildSpecs(c.id);
            && |plan| == 6 && plan[0] == Network && |specs| == 5
            && forall i :: 0 <= i < 5 ==> plan[i + 1].Container? && RuntimeName(c.id, plan[i + 1]) == specs[i].name
  {
    StackExactly(c.id);
    var plan, specs := Plan(c.service.kind), BuildSpecs(c.id);
    assert plan[0] == Network && plan[1] == Container("db") && plan[2] == Container("rest") && plan[3] == Container("auth")
        && plan[4] == Container("kong") && plan[5] == Container("functions");
    forall i | 0 <= i < 5 ensures plan[i + 1].Container? && RuntimeName(c.id, plan[i + 1]) == specs[i].name {
      NamesExactly(c.id);
      assert i == 0 || i == 1 || i == 2 || i == 3 || i == 4;
    }
  }

  lemma {:induction false} StackHeld(containers: set<string>, networks: set<string>, res: set<Resource>, c: Cluster, n: nat)
    requires c.service.kind.Supabase? && n <= |BuildSpecs(c.id)| && |Plan(c.service.kind)| == 6
    requires Holds(containers, networks, res + Planned(c, 1)) && n < 6
    ensures Holds(containers + NamesOf(BuildSpecs(c.id), n), networks, res + Planned(c, n + 1))
  {
    PlanIsStack(c);
    if n == 0 {
      assert containers + NamesOf(BuildSpecs(c.id), 0) == containers;
    } else {
      StackHeld(containers, networks, res, c, n - 1);
      OneMorePlanned(containers + NamesOf(BuildSpecs(c.id), n - 1), networks, res, c, n);
      MoreNames(BuildSpecs(c.id), n - 1);
      assert containers + NamesOf(BuildSpecs(c.id), n)
          == containers + NamesOf(BuildSpecs(c.id), n - 1) + {BuildSpecs(c.id)[n - 1].name};
    }
  }

  /** Nothing of a cluster is there under any of its names if nothing of it is recorded. */
  lemma NoneOfIt(containers: set<string>, networks: set<string>, res: set<Resource>, id: ClusterId, name: ResourceName)
    requires Holds(containers, networks, res) && Known(name) && forall r :: r in res ==> r.id != id
    ensures RuntimeName(id, name) !in containers && RuntimeName(id, name) !in networks
  {
    forall r | r in res ensures RuntimeName(r.id, r.name) != RuntimeName(id, name) {
      if RuntimeName(r.id, r.name) == RuntimeName(id, name) {
        NamesInjective(r.id, r.name, id, name);
      }
    }
  }

  /** How many of the planned resources a stack spawn has made that brought `up` containers up. */
  function Made(env: SpawnReplies, specs: seq<ContainerSpec>, up: nat): nat {
    if !env.network then 0
    else if !env.config || up >= |specs| || env.create(specs[up].name).NotCreated? then up + 1
    else up + 2
  }

  lemma SpawnedStack(before: map<string, bool>, after: map<string, bool>, networks: set<string>, res: set<Resource>,
                     c: Cluster, env: SpawnReplies, up: nat)
    requires c.service.kind.Supabase? && Holds(before.Keys, networks, res) && forall r :: r in res ==> r.id != c.id
    requires up <= |BuildSpecs(c.id)| && (!(env.network && env.config) ==> up == 0)
    requires PrefixCreated(before, after, BuildSpecs(c.id), env, env.network && env.config, up)
    ensures var n := Made(env, BuildSpecs(c.id), up);
            && n <= |Plan(c.service.kind)|
            && Holds(after.Keys, if env.network then networks + {NetworkName(c.id)} else networks, res + Planned(c, n))
  {
    PlanIsStack(c);
    assert res + Planned(c, 0) == res;
    if env.network {
      OneMorePlanned(before.Keys, networks, res, c, 0);
      SpawnedContainers(before, after, networks, res, c, env, up);
    }
  }

  lemma SpecIsFree(containers: set<string>, networks: set<string>, res: set<Resource>, c: Cluster, i: nat)
    requires c.service.kind.Supabase? && Holds(containers, networks, res) && forall r :: r in res ==> r.id != c.id
    requires i < |BuildSpecs(c.id)|
    ensures BuildSpecs(c.id)[i].name !in containers
  {
    PlanIsStack(c);
    PlansAreKnown(c.service.kind);
    NoneOfIt(containers, networks, res, c.id, Plan(c.service.kind)[i + 1]);
  }

  lemma RunningHeld(before: map<string, bool>, networks: set<string>, res: set<Resource>, c: Cluster, up: nat)
    requires c.service.kind.Supabase? && up <= |BuildSpecs(c.id)| && |Plan(c.service.kind)| == 6 && up <= 5
    requires Holds(before.Keys, networks, res + Planned(c, 1))
    ensures Holds(before.Keys + NamesOf(BuildSpecs(c.id), up), networks, res + Planned(c, up + 1))
    ensures (before + Backends.Running(BuildSpecs(c.id), up)).Keys == before.Keys + NamesOf(BuildSpecs(c.id), up)
  {
    StackHeld(before.Keys, networks, res, c, up);
  }

  lemma SpawnedContainers(before: map<string, bool>, after: map<string, bool>, networks: set<string>, res: set<Resource>,
                          c: Cluster, env: SpawnReplies, up: nat)
    requires c.service.kind.Supabase? && Holds(before.Keys, networks, res) && forall r :: r in res ==> r.id != c.id
    requires up <= |BuildSpecs(c.id)| && env.network && (!env.config ==> up == 0)
    requires PrefixCreated(before, after, BuildSpecs(c.id), env, env.config, up)
    requires |Plan(c.service.kind)| == 6 && Holds(before.Keys, networks + {NetworkName(c.id)}, res + Planned(c, 1))
    ensures var n := Made(env, BuildSpecs(c.id), up);
            n <= 6 && Holds(after.Keys, networks + {NetworkName(c.id)}, res + Planned(c, n))
  {
    StackExactly(c.id);
    RunningHeld(before, networks + {NetworkName(c.id)}, res, c, up);
    if env.config && up < |BuildSpecs(c.id)| {
      SpecIsFree(before.Keys, networks, res, c, up);
      NextOfStack(before, after, networks + {NetworkName(c.id)}, res, c, env, up);
    }
  }

  /** The container at which a stack spawn stopped. */
  lemma NextOfStack(before: map<string, bool>, after: map<string, bool>, networks: set<string>, res: set<Resource>,
                    c: Cluster, env: SpawnReplies, up: nat)
    requires c.service.kind.Supabase? && up < |BuildSpecs(c.id)| && |Plan(c.service.kind)| == 6 && up < 5
    requires BuildSpecs(c.id)[up].name !in before
    requires Holds(before.Keys + NamesOf(BuildSpecs(c.id), up), networks, res + Planned(c, up + 1))
    requires PrefixCreated(before, after, BuildSpecs(c.id), env, true, up)
    ensures Holds(after.Keys, networks,
                  res + Planned(c, if env.create(BuildSpecs(c.id)[up].name).NotCreated? then up + 1 else up + 2))
  {
    PlanIsStack(c);
    StackNamesDiffer(c.id);
    var specs := BuildSpecs(c.id);
    StackStep(before, specs, up, env.create(specs[up].name));
    assert (before + Backends.Running(specs, up)).Keys == before.Keys + NamesOf(specs, up);
    if !env.create(specs[up].name).NotCreated? {
      OneMorePlanned(before.Keys + NamesOf(specs, up), networks, res, c, up + 1);
      assert after.Keys == before.Keys + NamesOf(specs, up) + {specs[up].name};
    }
  }

  /** A stack spawn makes the resources of the protocol's plan, in that order and nothing else, and has made all
      of them when it succeeds. */
  method SpawnAsPlanned(runtime: ContainerRuntime, c: Cluster, timeout: Duration, env: SpawnReplies, ghost res: set<Resource>)
    returns (result: Result<Ports, Backends.SpawnError>, ghost n: nat)
    requires AllPaced(env) && timeout >= 0 && c.service.kind.Supabase?
    requires Holds(runtime.containers.Keys, runtime.networks, res) && forall r :: r in res ==> r.id != c.id
    modifies runtime
    ensures n <= |Plan(c.service.kind)| && Holds(runtime.containers.Keys, runtime.networks, res + Planned(c, n))
    ensures result.Ok? ==> n == |Plan(c.service.kind)|
  {
    ghost var before, networks := runtime.containers, runtime.networks;
    var up;
    result, up := SpawnSupabase(runtime, c.id, timeout, env);
    SpawnedStack(before, runtime.containers, networks, res, c, env, up);
    n := Made(env, BuildSpecs(c.id), up);
    PlanIsStack(c);
  }

  // ----- teardown -----

  /** What a stack teardown removes that got through `removed` containers and, in the end, perhaps the network. */
  function Taken(res: set<Resource>, id: ClusterId, removed: nat): set<Resource>
    requires removed <= |BuildSpecs(id)|
  {
    set r | r in res && r.id == id && r.name.Container? && RuntimeName(id, r.name) in NamesOf(BuildSpecs(id), removed)
  }

  /** The reply of the protocol's backend call that such a teardown amounts to. */
  function StackReply(res: set<Resource>, id: ClusterId, removed: nat, ok: bool): TearReply
    requires removed <= |BuildSpecs(id)|
  {
    TearReply(ok, Taken(res, id, removed), {})
  }

  /** Whose names are among the first of a cluster's stack. */
  lemma NamesOfStack(res: set<Resource>, c: Cluster, removed: nat, r: Resource)
    requires c.service.kind.Supabase? && removed <= |BuildSpecs(c.id)| && Known(r.name)
    requires RuntimeName(r.id, r.name) in NamesOf(BuildSpecs(c.id), removed)
    ensures r.id == c.id && r.name.Container?
  {
    PlanIsStack(c);
    PlansAreKnown(c.service.kind);
    var i :| 0 <= i < removed && BuildSpecs(c.id)[i].name == RuntimeName(r.id, r.name);
    NamesInjective(r.id, r.name, c.id, Plan(c.service.kind)[i + 1]);
  }

  lemma ContainersLeft(containers: set<string>, networks: set<string>, res: set<Resource>, c: Cluster, removed: nat)
    requires c.service.kind.Supabase? && removed <= |BuildSpecs(c.id)| && Holds(containers, networks, res)
    ensures Holds(containers - NamesOf(BuildSpecs(c.id), removed), networks, res - Taken(res, c.id, removed))
  {
    var gone := NamesOf(BuildSpecs(c.id), removed);
    var left := res - Taken(res, c.id, removed);
    forall r | r in res && r.name.Container? ensures r in left <==> RuntimeName(r.id, r.name) !in gone {
      if RuntimeName(r.id, r.name) in gone {
        NamesOfStack(res, c, removed, r);
      }
    }
    assert forall r :: r in left && r.name.Container? ==> RuntimeName(r.id, r.name) in containers - gone;
  }

  /** All that is recorded of the cluster is its containers and its network. */
  lemma AllTaken(containers: set<string>, networks: set<string>, res: set<Resource>, c: Cluster)
    requires c.service.kind.Supabase? && Holds(containers, networks, res) && OfItsKind(res, c)
    ensures forall r :: r in res && r.id == c.id && r.name.Container? ==> r in Taken(res, c.id, |BuildSpecs(c.id)|)
  {
    PlanIsStack(c);
    var plan, specs := Plan(c.service.kind), BuildSpecs(c.id);
    forall r | r in res && r.id == c.id && r.name.Container? ensures r in Taken(res, c.id, |specs|) {
      var i :| 0 <= i < |plan| && plan[i] == r.name;
      assert RuntimeName(c.id, plan[i - 1 + 1]) == specs[i - 1].name;
    }
  }

  lemma NetworkLeft(containers: set<string>, networks: set<string>, res: set<Resource>, id: ClusterId)
    requires Holds(containers, networks, res)
    ensures Holds(containers, networks - {NetworkName(id)}, set r | r in res && !(r.id == id && r.name.Network?))
  {
    var left := set r | r in res && !(r.id == id && r.name.Network?);
    forall r | r in res && r.name.Network? ensures r in left <==> RuntimeName(r.id, r.name) != NetworkName(id) {
      if RuntimeName(r.id, r.name) == NetworkName(id) {
        NamesInjective(r.id, r.name, id, Network);
      }
    }
    assert forall r :: r in res && r.name.Container? ==> r in left;
  }

  /** A stack teardown, wherever it stops, does to the cluster's resources what one reply of the protocol's
      backend call does, and that reply is a success if and only if the teardown is. */
  method TeardownAsReplied(cfg: Settings, runtime: ContainerRuntime, c: Cluster, answers: nat -> bool, networkAnswers: bool,
                           ghost res: set<Resource>)
    returns (ok: bool, ghost reply: TearReply)
    requires c.service.kind.Supabase? && c.service.kind in cfg.backends
    requires Holds(runtime.containers.Keys, runtime.networks, res) && OfItsKind(res, c)
    modifies runtime
    ensures Holds(runtime.containers.Keys, runtime.networks, ResAfter(cfg, res, c, reply))
    ensures reply.ok == ok && forall r :: r in reply.gone ==> r in res && r.id == c.id
  {
    ghost var before, networks := runtime.containers, runtime.networks;
    var removed;
    ok, removed := TeardownSupabase(runtime, c.id, answers, networkAnswers);
    reply := StackReply(res, c.id, removed, ok);
    ContainersLeft(before.Keys, networks, res, c, removed);
    assert runtime.containers.Keys == before.Keys - NamesOf(BuildSpecs(c.id), removed);
    if ok {
      AllTaken(before.Keys, networks, res, c);
      NetworkLeft(runtime.containers.Keys, networks, res - Taken(res, c.id, removed), c.id);
      assert ResAfter(cfg, res, c, reply)
          == set r | r in res - Taken(res, c.id, removed) && !(r.id == c.id && r.name.Network?);
    } else {
      assert ResAfter(cfg, res, c, reply) == res - Taken(res, c.id, removed);
    }
  }

  // ----- a single container -----

  /** The same of the one container of a Postgres cluster. */
  method SpawnPostgresAsPlanned(runtime: ContainerRuntime, c: Cluster, timeout: Duration, create: CreateReply, polls: Polls,
                                extension: bool, ghost res: set<Resource>)
    returns (result: Result<nat, Backends.SpawnError>, ghost n: nat)
    requires Paced(polls) && timeout >= 0 && c.service.kind.Postgres?
    requires Holds(runtime.containers.Keys, runtime.networks, res) && forall r :: r in res ==> r.id != c.id
    modifies runtime`containers
    ensures n <= |Plan(c.service.kind)| && Holds(runtime.containers.Keys, runtime.networks, res + Planned(c, n))
    ensures result.Ok? ==> n == |Plan(c.service.kind)|
  {
    ghost var before := runtime.containers;
    NoneOfIt(before.Keys, runtime.networks, res, c.id, Container(""));
    assert res + Planned(c, 0) == res;
    OneMorePlanned(before.Keys, runtime.networks, res, c, 0);
    var waited;
    result, waited := SpawnPostgres(runtime, c.id, c.service.pgvector, timeout, create, polls, extension);
    n := if create.NotCreated? then 0 else 1;
    assert !create.NotCreated? ==> runtime.containers.Keys == before.Keys + {PostgresContainerName(c.id)};
  }

  method TeardownPostgresAsReplied(cfg: Settings, runtime: ContainerRuntime, c: Cluster, answered: bool, ghost res: set<Resource>)
    returns (ok: bool)
    requires c.service.kind.Postgres? && c.service.kind in cfg.backends
    requires Holds(runtime.containers.Keys, runtime.networks, res) && OfItsKind(res, c)
    modifies runtime`containers
    ensures Holds(runtime.containers.Keys, runtime.networks, ResAfter(cfg, res, c, TearReply(ok, {}, {})))
    ensures ok == answered
  {
    ghost var before := runtime.containers;
    ok := TeardownPostgres(runtime, c.id, answered);
    ghost var left := ResAfter(cfg, res, c, TearReply(ok, {}, {}));
    if ok {
      assert Plan(c.service.kind) == [Container("")];
      forall r | r in res && r.name.Container? ensures r in left <==> RuntimeName(r.id, r.name) != PostgresContainerName(c.id) {
        if RuntimeName(r.id, r.name) == PostgresContainerName(c.id) {
          NamesInjective(r.id, r.name, c.id, Container(""));
        }
      }
      assert runtime.containers.Keys == before.Keys - {PostgresContainerName(c.id)};
      assert forall r :: r in res && r.name.Network? ==> r in left;
    } else {
      assert left == res;
    }
  }
}
