/** Provisioning and removing the containers of one cluster: a single Postgres container, or the
    five-container Supabase stack on a network of its own. */
module Backends {
  import opened Domain
  import opened Lifecycle
  import opened Names
  import opened HealthWait

  /** What the container runtime holds: containers by name, with whether they were started, and networks. */
  class ContainerRuntime {
    var containers: map<string, bool>
    var networks: set<string>

    constructor ()
      ensures containers == map[] && networks == {}
    {
      containers, networks := map[], {};
    }

    /** May leave a container that was created but not started. */
    method CreateAndStart(name: string, reply: CreateReply) returns (ok: bool)
      modifies this`containers
      ensures containers == AfterCreateAndStart(old(containers), name, reply)
      ensures containers == if name in old(containers) || reply == NotCreated then old(containers)
                            else old(containers)[name := reply == Started]
      ensures ok <==> name !in old(containers) && reply == Started
    {
      if name in containers || reply.NotCreated? {
        return false;
      }
      containers := containers[name := reply.Started?];
      ok := reply.Started?;
    }

    /** Removing what is already gone succeeds. */
    method StopAndRemove(name: string, answered: bool) returns (ok: bool)
      modifies this`containers
      ensures containers == if answered then old(containers) - {name} else old(containers)
      ensures ok == answered
    {
      if answered {
        containers := containers - {name};
      }
      ok := answered;
    }
  }

  datatype CreateReply = Started | NotCreated | NotStarted

  function AfterCreateAndStart(containers: map<string, bool>, name: string, reply: CreateReply): map<string, bool> {
    if name in containers || reply.NotCreated? then containers else containers[name := reply.Started?]
  }

  datatype SpawnError =
    | NetworkFailed
    | ConfigFailed
    | CreateFailed(suffix: string)
    | WaitFailed(error: WaitError)
    | NoPort(suffix: string)
    | InspectFailed
    | ExtensionFailed

  datatype Ports = Ports(kong: nat, db: nat)

  /** What the runtime and the clock answer during one spawn, container by container under its name. */
  datatype SpawnReplies = SpawnReplies(
    network: bool,
    config: bool,
    create: string -> CreateReply,
    polls: string -> Polls,
    dbAtEnd: Inspection)

  /** What matters of a container description: its name, and whether it has a health check. */
  datatype ContainerSpec = ContainerSpec(name: string, healthChecked: bool)

  /** The containers of a stack in spawn order; the last has no health check and is up once it runs. */
  function BuildSpecs(id: ClusterId): (specs: seq<ContainerSpec>)
    ensures |specs| == |SERVICE_SUFFIXES|
  {
    seq(|SERVICE_SUFFIXES|, i requires 0 <= i < |SERVICE_SUFFIXES| =>
      ContainerSpec(SupabaseContainerName(id, SERVICE_SUFFIXES[i]), SERVICE_SUFFIXES[i] != "functions"))
  }

  ghost predicate AllPaced(env: SpawnReplies) {
    forall name :: Paced(env.polls(name))
  }

  ghost predicate DistinctNames(specs: seq<ContainerSpec>) {
    forall i, j :: 0 <= i < j < |specs| ==> specs[i].name != specs[j].name
  }

  /** The health wait of the `i`-th container ends with `result`. */
  ghost predicate WaitsTo(specs: seq<ContainerSpec>, env: SpawnReplies, timeout: Duration, i: nat,
                          result: Result<Option<nat>, WaitError>)
    requires i < |specs|
  {
    exists k: nat :: EndsAt(env.polls(specs[i].name), timeout, specs[i].healthChecked, k)
                     && ResultAt(env.polls(specs[i].name), timeout, specs[i].healthChecked, k) == result
  }

  /** The `i`-th container starts and passes its health wait. */
  ghost predicate ComesUp(specs: seq<ContainerSpec>, env: SpawnReplies, timeout: Duration, i: nat)
    requires i < |specs|
  {
    env.create(specs[i].name).Started? && exists port :: WaitsTo(specs, env, timeout, i, Ok(port))
  }

  /** The first `n` containers come up. */
  ghost predicate AllUp(specs: seq<ContainerSpec>, env: SpawnReplies, timeout: Duration, n: nat)
    requires n <= |specs|
  {
    n == 0 || (AllUp(specs, env, timeout, n - 1) && ComesUp(specs, env, timeout, n - 1))
  }

  function NamesOf(specs: seq<ContainerSpec>, n: nat): set<string>
    requires n <= |specs|
  {
    set i | 0 <= i < n :: specs[i].name
  }

  /** The first `n` containers, all started. */
  function Running(specs: seq<ContainerSpec>, n: nat): map<string, bool>
    requires n <= |specs|
  {
    map name | name in NamesOf(specs, n) :: true
  }

  /** What a spawn whose first `up` containers came up leaves behind: those, and possibly the next one,
      created and perhaps started. */
  ghost predicate PrefixCreated(before: map<string, bool>, after: map<string, bool>, specs: seq<ContainerSpec>,
                                env: SpawnReplies, reached: bool, up: nat)
    requires up <= |specs|
  {
    after == if reached && up < |specs|
             then AfterCreateAndStart(before + Running(specs, up), specs[up].name, env.create(specs[up].name))
             else before + Running(specs, up)
  }

  lemma MoreNames(specs: seq<ContainerSpec>, n: nat)
    requires n < |specs|
    ensures NamesOf(specs, n + 1) == NamesOf(specs, n) + {specs[n].name}
    ensures Running(specs, n + 1) == Running(specs, n)[specs[n].name := true]
  {
  }

  lemma StackStep(before: map<string, bool>, specs: seq<ContainerSpec>, n: nat, reply: CreateReply)
    requires n < |specs| && DistinctNames(specs)
    ensures specs[n].name in before + Running(specs, n) <==> specs[n].name in before
    ensures specs[n].name !in before && reply.Started? ==>
              AfterCreateAndStart(before + Running(specs, n), specs[n].name, reply) == before + Running(specs, n + 1)
  {
    MoreNames(specs, n);
  }

  lemma OneResult(specs: seq<ContainerSpec>, env: SpawnReplies, timeout: Duration, i: nat,
                  result: Result<Option<nat>, WaitError>)
    requires i < |specs| && WaitsTo(specs, env, timeout, i, result)
    ensures forall other :: WaitsTo(specs, env, timeout, i, other) ==> other == result
  {
  }

  /** Creates the `i`-th container and waits for it. */
  method BringUp(runtime: ContainerRuntime, specs: seq<ContainerSpec>, timeout: Duration, env: SpawnReplies, i: nat)
    returns (result: Result<Option<nat>, SpawnError>)
    requires AllPaced(env) && timeout >= 0 && i < |specs|
    modifies runtime`containers
    ensures runtime.containers == AfterCreateAndStart(old(runtime.containers), specs[i].name, env.create(specs[i].name))
    ensures result.Ok? ==> ComesUp(specs, env, timeout, i) && WaitsTo(specs, env, timeout, i, Ok(result.value))
    ensures result.Ok? ==> specs[i].name !in old(runtime.containers)
    ensures result.Err? ==> specs[i].name in old(runtime.containers) || !ComesUp(specs, env, timeout, i)
  {
    var ok := runtime.CreateAndStart(specs[i].name, env.create(specs[i].name));
    if !ok {
      return Err(CreateFailed(specs[i].name));
    }
    var waited, inspections := WaitUntilHealthy(env.polls(specs[i].name), timeout, specs[i].healthChecked);
    assert WaitsTo(specs, env, timeout, i, waited);
    match waited {
      case Err(e) =>
        OneResult(specs, env, timeout, i, waited);
        result := Err(WaitFailed(e));
      case Ok(port) => result := Ok(port);
    }
  }

  /** The next container of a stack whose first `up` are running. */
  method BringUpNext(runtime: ContainerRuntime, specs: seq<ContainerSpec>, timeout: Duration, env: SpawnReplies, up: nat,
                     ghost before: map<string, bool>)
    returns (result: Result<Option<nat>, SpawnError>)
    requires AllPaced(env) && timeout >= 0 && DistinctNames(specs) && up < |specs|
    requires runtime.containers == before + Running(specs, up) && AllUp(specs, env, timeout, up)
    modifies runtime`containers
    ensures result.Ok? ==>
              && runtime.containers == before + Running(specs, up + 1)
              && AllUp(specs, env, timeout, up + 1) && WaitsTo(specs, env, timeout, up, Ok(result.value))
    ensures result.Err? ==>
              && PrefixCreated(before, runtime.containers, specs, env, true, up)
              && (specs[up].name in before || !ComesUp(specs, env, timeout, up))
  {
    StackStep(before, specs, up, env.create(specs[up].name));
    result := BringUp(runtime, specs, timeout, env, up);
  }

  /** One container at a time, each only after the one before it is healthy; reports the port that the
      container called `kong` published. */
  method SpawnStack(runtime: ContainerRuntime, specs: seq<ContainerSpec>, kong: nat, timeout: Duration, env: SpawnReplies)
    returns (result: Result<Option<nat>, SpawnError>, up: nat)
    requires AllPaced(env) && timeout >= 0 && DistinctNames(specs) && kong < |specs|
    modifies runtime`containers
    ensures up <= |specs| && AllUp(specs, env, timeout, up)
    ensures PrefixCreated(old(runtime.containers), runtime.containers, specs, env, true, up)
    ensures up < |specs| ==> specs[up].name in old(runtime.containers) || !ComesUp(specs, env, timeout, up)
    ensures result.Ok? <==> up == |specs|
    ensures result.Ok? ==> WaitsTo(specs, env, timeout, kong, Ok(result.value))
  {
    up := 0;
    ghost var before := runtime.containers;
    assert before + Running(specs, 0) == before;
    var kongPort: Option<nat> := None;
    while up < |specs|
      invariant up <= |specs| && runtime.containers == before + Running(specs, up)
      invariant AllUp(specs, env, timeout, up)
      invariant up > kong ==> WaitsTo(specs, env, timeout, kong, Ok(kongPort))
    {
      var one := BringUpNext(runtime, specs, timeout, env, up, before);
      if one.Err? {
        return Err(one.error), up;
      }
      if specs[up].name == specs[kong].name {
        kongPort := one.value;
      }
      up := up + 1;
    }
    result := Ok(kongPort);
  }

  // ----- what the order means -----

  /** Some poll of the container's wait saw it running and healthy. */
  ghost predicate SawHealthy(env: SpawnReplies, name: string) {
    exists k: nat :: env.polls(name).sees(k).Running? && env.polls(name).sees(k).health == Some(Healthy)
  }

  ghost predicate SawRunning(env: SpawnReplies, name: string) {
    exists k: nat :: env.polls(name).sees(k).Running?
  }

  lemma {:induction false} AllUpTo(specs: seq<ContainerSpec>, env: SpawnReplies, timeout: Duration, up: nat, i: nat)
    requires i < up <= |specs| && AllUp(specs, env, timeout, up)
    ensures ComesUp(specs, env, timeout, i)
  {
    if i == up - 1 {
    } else {
      AllUpTo(specs, env, timeout, up - 1, i);
    }
  }

  lemma ComesUpMeans(specs: seq<ContainerSpec>, env: SpawnReplies, timeout: Duration, i: nat)
    requires i < |specs| && ComesUp(specs, env, timeout, i)
    ensures env.create(specs[i].name) == Started && SawRunning(env, specs[i].name)
    ensures specs[i].healthChecked ==> SawHealthy(env, specs[i].name)
  {
    var port :| WaitsTo(specs, env, timeout, i, Ok(port));
    var polls, checked := env.polls(specs[i].name), specs[i].healthChecked;
    var k: nat :| EndsAt(polls, timeout, checked, k) && ResultAt(polls, timeout, checked, k) == Ok(port);
    EndsExactly(polls, timeout, checked, k);
    assert polls.sees(k).Running?;
  }

  /** A container of the stack that was not there before comes after containers that all came up. */
  lemma NewComesAfter(before: map<string, bool>, after: map<string, bool>, specs: seq<ContainerSpec>, env: SpawnReplies,
                      timeout: Duration, reached: bool, up: nat, i: nat, j: nat)
    requires up <= |specs| && DistinctNames(specs) && AllUp(specs, env, timeout, up)
    requires PrefixCreated(before, after, specs, env, reached, up)
    requires j < i < |specs| && specs[i].name in after && specs[i].name !in before
    ensures ComesUp(specs, env, timeout, j)
  {
    assert i <= up;
    AllUpTo(specs, env, timeout, up, j);
  }

  /** The stack in so many words: the database first, then rest, auth, kong and functions; all but the last
      with a health check. */
  lemma StackExactly(id: ClusterId)
    ensures var specs := BuildSpecs(id);
            && |specs| == 5
            && specs[0] == ContainerSpec(SupabaseContainerName(id, "db"), true)
            && specs[1] == ContainerSpec(SupabaseContainerName(id, "rest"), true)
            && specs[2] == ContainerSpec(SupabaseContainerName(id, "auth"), true)
            && specs[3] == ContainerSpec(SupabaseContainerName(id, "kong"), true)
            && specs[4] == ContainerSpec(SupabaseContainerName(id, "functions"), false)
  {
    var s := SERVICE_SUFFIXES;
    assert s[0] == "db" && s[1] == "rest" && s[2] == "auth" && s[3] == "kong" && s[4] == "functions";
    assert |s[0]| == 2 && |s[1]| == 4 && |s[2]| == 4 && |s[3]| == 4;
  }

  /** A container of the cluster that a spawn has added. */
  predicate Added(before: map<string, bool>, after: map<string, bool>, id: ClusterId, suffix: string) {
    SupabaseContainerName(id, suffix) in after && SupabaseContainerName(id, suffix) !in before
  }

  /** Nothing is added before what it builds on has been seen healthy. */
  ghost predicate InOrder(before: map<string, bool>, after: map<string, bool>, id: ClusterId, env: SpawnReplies) {
    && (Added(before, after, id, "rest") ==> SawHealthy(env, SupabaseContainerName(id, "db")))
    && (Added(before, after, id, "auth") ==>
          SawHealthy(env, SupabaseContainerName(id, "db")) && SawHealthy(env, SupabaseContainerName(id, "rest")))
    && (Added(before, after, id, "kong") ==>
          && SawHealthy(env, SupabaseContainerName(id, "db")) && SawHealthy(env, SupabaseContainerName(id, "rest"))
          && SawHealthy(env, SupabaseContainerName(id, "auth")))
    && (Added(before, after, id, "functions") ==>
          && SawHealthy(env, SupabaseContainerName(id, "db")) && SawHealthy(env, SupabaseContainerName(id, "rest"))
          && SawHealthy(env, SupabaseContainerName(id, "auth")) && SawHealthy(env, SupabaseContainerName(id, "kong")))
  }

  lemma OrderHolds(before: map<string, bool>, after: map<string, bool>, id: ClusterId, env: SpawnReplies,
                   timeout: Duration, reached: bool, up: nat)
    requires var specs := BuildSpecs(id);
             up <= |specs| && AllUp(specs, env, timeout, up) && PrefixCreated(before, after, specs, env, reached, up)
    ensures InOrder(before, after, id, env)
  {
    var specs := BuildSpecs(id);
    StackExactly(id);
    StackNamesDiffer(id);
    forall i: nat, j: nat | j < i < 5 && specs[i].name in after && specs[i].name !in before
      ensures SawHealthy(env, specs[j].name)
    {
      NewComesAfter(before, after, specs, env, timeout, reached, up, i, j);
      ComesUpMeans(specs, env, timeout, j);
      assert specs[j].healthChecked;
    }
  }

  /** A stack that is all up: every container started, the checked ones seen healthy, the last running. */
  ghost predicate StackStands(containers: map<string, bool>, id: ClusterId, env: SpawnReplies) {
    && (forall suffix :: suffix in {"db", "rest", "auth", "kong", "functions"} ==>
          SupabaseContainerName(id, suffix) in containers && containers[SupabaseContainerName(id, suffix)])
    && (forall suffix :: suffix in {"db", "rest", "auth", "kong"} ==> SawHealthy(env, SupabaseContainerName(id, suffix)))
    && SawRunning(env, SupabaseContainerName(id, "functions"))
  }

  lemma AllUpStands(before: map<string, bool>, after: map<string, bool>, id: ClusterId, env: SpawnReplies, timeout: Duration)
    requires var specs := BuildSpecs(id);
             AllUp(specs, env, timeout, |specs|) && PrefixCreated(before, after, specs, env, true, |specs|)
    ensures StackStands(after, id, env)
  {
    var specs := BuildSpecs(id);
    StackExactly(id);
    forall i: nat | i < |specs|
      ensures specs[i].name in after && after[specs[i].name] && SawRunning(env, specs[i].name)
      ensures specs[i].healthChecked ==> SawHealthy(env, specs[i].name)
    {
      AllUpTo(specs, env, timeout, |specs|, i);
      ComesUpMeans(specs, env, timeout, i);
      assert specs[i].name in NamesOf(specs, |specs|);
    }
    assert specs[0].name in after && specs[1].name in after && specs[2].name in after && specs[3].name in after
        && specs[4].name in after;
  }

  /** Position of the API gateway in the stack. */
  const KONG: nat := 3

  /** The network first, then the generated configuration, then the stack. */
  method SpawnSupabase(runtime: ContainerRuntime, id: ClusterId, timeout: Duration, env: SpawnReplies)
    returns (result: Result<Ports, SpawnError>, up: nat)
    requires AllPaced(env) && timeout >= 0
    modifies runtime
    ensures up <= |BuildSpecs(id)| && AllUp(BuildSpecs(id), env, timeout, up)
    ensures runtime.networks == if env.network then old(runtime.networks) + {NetworkName(id)} else old(runtime.networks)
    ensures PrefixCreated(old(runtime.containers), runtime.containers, BuildSpecs(id), env, env.network && env.config, up)
    ensures !(env.network && env.config) ==> up == 0
    ensures env.network && env.config && up < |BuildSpecs(id)| ==>
              BuildSpecs(id)[up].name in old(runtime.containers) || !ComesUp(BuildSpecs(id), env, timeout, up)
    ensures InOrder(old(runtime.containers), runtime.containers, id, env)
    ensures !env.network || !env.config ==> result.Err? && runtime.containers == old(runtime.containers)
    ensures result.Ok? ==>
              && up == |BuildSpecs(id)| && WaitsTo(BuildSpecs(id), env, timeout, KONG, Ok(Some(result.value.kong)))
              && env.dbAtEnd.Running? && env.dbAtEnd.port == Some(result.value.db)
              && NetworkName(id) in runtime.networks && StackStands(runtime.containers, id, env)
    ensures result.Err? && up == |BuildSpecs(id)| ==>
              || WaitsTo(BuildSpecs(id), env, timeout, KONG, Ok(None))
              || !env.dbAtEnd.Running? || env.dbAtEnd.port.None?
  {
    up := 0;
    var specs := BuildSpecs(id);
    StackNamesDiffer(id);
    assert runtime.containers + Running(specs, 0) == runtime.containers;
    if !env.network {
      return Err(NetworkFailed), 0;
    }
    runtime.networks := runtime.networks + {NetworkName(id)};
    if !env.config {
      return Err(ConfigFailed), 0;
    }
    var kongPort;
    kongPort, up := SpawnStack(runtime, specs, KONG, timeout, env);
    OrderHolds(old(runtime.containers), runtime.containers, id, env, timeout, true, up);
    if up == |specs| {
      AllUpStands(old(runtime.containers), runtime.containers, id, env, timeout);
    }
    match kongPort {
      case Err(e) => return Err(e), up;
      case Ok(None) => return Err(NoPort("kong")), up;
      case Ok(Some(kong)) =>
        match env.dbAtEnd {
          case Running(Some(db), _) => return Ok(Ports(kong, db)), up;
          case InspectFails => return Err(InspectFailed), up;
          case _ => return Err(NoPort("db")), up;
        }
    }
  }

  lemma SuffixesKnown()
    ensures |SERVICE_SUFFIXES| == 5 && SERVICE_SUFFIXES[KONG] == "kong"
    ensures forall i :: 0 <= i < |SERVICE_SUFFIXES| ==> Known(Container(SERVICE_SUFFIXES[i])) && SERVICE_SUFFIXES[i] != ""
    ensures forall i, j :: 0 <= i < j < |SERVICE_SUFFIXES| ==> SERVICE_SUFFIXES[i] != SERVICE_SUFFIXES[j]
  {
  }

  lemma StackNamesDiffer(id: ClusterId)
    ensures DistinctNames(BuildSpecs(id)) && |BuildSpecs(id)| > KONG
  {
    SuffixesKnown();
    var specs := BuildSpecs(id);
    forall i, j | 0 <= i < j < |specs| ensures specs[i].name != specs[j].name {
      var m, n := Container(SERVICE_SUFFIXES[i]), Container(SERVICE_SUFFIXES[j]);
      if RuntimeName(id, m) == RuntimeName(id, n) {
        NamesInjective(id, m, id, n);
      }
    }
  }

  /** Containers in spawn order; the first removal that fails ends it. */
  method RemoveStack(runtime: ContainerRuntime, specs: seq<ContainerSpec>, answers: nat -> bool) returns (removed: nat)
    modifies runtime`containers
    ensures removed <= |specs| && (forall i :: 0 <= i < removed ==> answers(i)) && (removed < |specs| ==> !answers(removed))
    ensures runtime.containers == old(runtime.containers) - NamesOf(specs, removed)
  {
    removed := 0;
    while removed < |specs|
      invariant removed <= |specs| && forall i :: 0 <= i < removed ==> answers(i)
      invariant runtime.containers == old(runtime.containers) - NamesOf(specs, removed)
    {
      MoreNames(specs, removed);
      var gone := runtime.StopAndRemove(specs[removed].name, answers(removed));
      if !gone {
        return;
      }
      removed := removed + 1;
    }
  }

  /** The network goes only after all its containers. */
  method TeardownSupabase(runtime: ContainerRuntime, id: ClusterId, answers: nat -> bool, networkAnswers: bool)
    returns (ok: bool, removed: nat)
    modifies runtime
    ensures var specs := BuildSpecs(id);
            && removed <= |specs| && (forall i :: 0 <= i < removed ==> answers(i)) && (removed < |specs| ==> !answers(removed))
            && runtime.containers == old(runtime.containers) - NamesOf(specs, removed)
            && (ok <==> removed == |specs| && networkAnswers)
    ensures runtime.networks == if ok then old(runtime.networks) - {NetworkName(id)} else old(runtime.networks)
    ensures ok ==>
              && NetworkName(id) !in runtime.networks
              && forall suffix :: suffix in {"db", "rest", "auth", "kong", "functions"} ==>
                   SupabaseContainerName(id, suffix) !in runtime.containers
  {
    var specs := BuildSpecs(id);
    StackExactly(id);
    assert specs[0].name in NamesOf(specs, 5) && specs[1].name in NamesOf(specs, 5) && specs[2].name in NamesOf(specs, 5)
        && specs[3].name in NamesOf(specs, 5) && specs[4].name in NamesOf(specs, 5);
    removed := RemoveStack(runtime, specs, answers);
    ok := removed == |specs| && networkAnswers;
    if ok {
      runtime.networks := runtime.networks - {NetworkName(id)};
    }
  }

  /** The first container that does not run, or cannot be inspected, decides. */
  method IsAlive(sees: nat -> Inspection, containers: nat) returns (alive: Result<bool, SpawnError>)
    ensures alive == Ok(true) <==> forall i :: 0 <= i < containers ==> sees(i).Running?
    ensures alive == Ok(false) <==>
              exists i :: 0 <= i < containers && (sees(i).Exited? || sees(i).NotFound?) && forall j :: 0 <= j < i ==> sees(j).Running?
    ensures alive.Err? ==> exists i :: 0 <= i < containers && sees(i).InspectFails? && forall j :: 0 <= j < i ==> sees(j).Running?
  {
    for i := 0 to containers
      invariant forall j :: 0 <= j < i ==> sees(j).Running?
    {
      match sees(i) {
        case Running(_, _) =>
        case InspectFails => return Err(InspectFailed);
        case _ => return Ok(false);
      }
    }
    alive := Ok(true);
  }

  // ----- one container -----

  /** One container; `extension` is the answer to enabling the vector extension, when it is asked for. */
  method SpawnPostgres(runtime: ContainerRuntime, id: ClusterId, pgvector: bool, timeout: Duration,
                       create: CreateReply, polls: Polls, extension: bool)
    returns (result: Result<nat, SpawnError>, waited: Result<Option<nat>, WaitError>)
    requires Paced(polls) && timeout >= 0
    modifies runtime`containers
    ensures runtime.containers == AfterCreateAndStart(old(runtime.containers), PostgresContainerName(id), create)
    ensures result.Ok? <==>
              && PostgresContainerName(id) !in old(runtime.containers) && create.Started?
              && waited.Ok? && waited.value.Some? && (pgvector ==> extension)
    ensures result.Ok? ==>
              && waited == Ok(Some(result.value))
              && exists k: nat :: polls.sees(k) == Inspection.Running(Some(result.value), Some(Healthy))
    ensures create.Started? && PostgresContainerName(id) !in old(runtime.containers) ==>
              exists k: nat :: EndsAt(polls, timeout, true, k) && waited == ResultAt(polls, timeout, true, k)
  {
    waited := Err(RuntimeFails);
    var ok := runtime.CreateAndStart(PostgresContainerName(id), create);
    if !ok {
      return Err(CreateFailed("")), waited;
    }
    var inspections;
    waited, inspections := WaitUntilHealthy(polls, timeout, true);
    assert waited.Ok? ==> polls.sees(inspections - 1) == Inspection.Running(waited.value, Some(Healthy));
    match waited {
      case Err(e) => return Err(WaitFailed(e)), waited;
      case Ok(None) => return Err(NoPort("")), waited;
      case Ok(Some(port)) =>
        if pgvector && !extension {
          return Err(ExtensionFailed), waited;
        }
        return Ok(port), waited;
    }
  }

  method TeardownPostgres(runtime: ContainerRuntime, id: ClusterId, answered: bool) returns (ok: bool)
    modifies runtime`containers
    ensures runtime.containers == if answered then old(runtime.containers) - {PostgresContainerName(id)}
                                  else old(runtime.containers)
    ensures ok == answered
  {
    ok := runtime.StopAndRemove(PostgresContainerName(id), answered);
  }

  // ----- what a teardown reaches -----

  /** The stack's names are exactly those of the known Supabase containers of the cluster. */
  lemma StackNamesExactly(id: ClusterId, owner: ClusterId, name: ResourceName)
    requires Known(name) && name.Container?
    ensures RuntimeName(owner, name) in NamesOf(BuildSpecs(id), |BuildSpecs(id)|) <==> owner == id && name.suffix != ""
  {
    SuffixesKnown();
    var specs := BuildSpecs(id);
    forall i | 0 <= i < |specs| && RuntimeName(owner, name) == specs[i].name ensures owner == id && name.suffix != "" {
      NamesInjective(owner, name, id, Container(SERVICE_SUFFIXES[i]));
    }
    if owner == id && name.suffix != "" {
      var i :| 0 <= i < |SERVICE_SUFFIXES| && SERVICE_SUFFIXES[i] == name.suffix;
      assert specs[i].name == RuntimeName(owner, name);
    }
  }

  /** A teardown that succeeds, whatever subset of the stack it finds, leaves nothing of the cluster's
      stack and network, and touches no resource of any other cluster or kind. */
  lemma TeardownReachesExactlyItsOwn(containers: map<string, bool>, networks: set<string>, id: ClusterId,
                                     owner: ClusterId, name: ResourceName)
    requires Known(name)
    ensures var text := RuntimeName(owner, name); var stack := NamesOf(BuildSpecs(id), |BuildSpecs(id)|);
            && (name.Container? ==>
                  (text in containers - stack <==> text in containers && !(owner == id && name.suffix != "")))
            && (name.Container? ==>
                  (text in containers - {PostgresContainerName(id)} <==> text in containers && !(owner == id && name.suffix == "")))
            && (name.Network? ==> (text in networks - {NetworkName(id)} <==> text in networks && owner != id))
  {
    if name.Container? {
      StackNamesExactly(id, owner, name);
      if RuntimeName(owner, name) == PostgresContainerName(id) {
        NamesInjective(owner, name, id, Container(""));
      }
    } else if NetworkName(owner) == NetworkName(id) {
      NamesInjective(owner, Network, id, Network);
    }
  }

  /** Wherever a spawn stops, the teardown that follows leaves the runtime as the spawn found it. */
  method SpawnThenTeardown(runtime: ContainerRuntime, id: ClusterId, timeout: Duration, env: SpawnReplies)
    returns (result: Result<Ports, SpawnError>)
    requires AllPaced(env) && timeout >= 0
    requires runtime.containers.Keys !! NamesOf(BuildSpecs(id), |BuildSpecs(id)|) && NetworkName(id) !in runtime.networks
    modifies runtime
    ensures runtime.containers == old(runtime.containers) && runtime.networks == old(runtime.networks)
  {
    var up;
    result, up := SpawnSupabase(runtime, id, timeout, env);
    PrefixGone(old(runtime.containers), runtime.containers, BuildSpecs(id), env, env.network && env.config, up);
    var ok, removed := TeardownSupabase(runtime, id, i => true, true);
  }

  lemma PrefixGone(before: map<string, bool>, after: map<string, bool>, specs: seq<ContainerSpec>, env: SpawnReplies,
                   reached: bool, up: nat)
    requires up <= |specs| && PrefixCreated(before, after, specs, env, reached, up)
    requires before.Keys !! NamesOf(specs, |specs|)
    ensures after - NamesOf(specs, |specs|) == before
  {
  }
}
