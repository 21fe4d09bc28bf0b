/** Validation of the configuration, and why a valid one gives every client an account of its own. */
module Config {
  import opened Domain
  import opened Persistence
  import opened Lifecycle

  /** `hashParses` says whether the client's secret hash is well formed. */
  datatype ClientEntry = ClientEntry(name: string, unixUser: string, hashParses: bool)

  datatype LimitsSection = LimitsSection(
    minTtlSecs: int,
    maxTtlSecs: int,
    maxClustersPerUser: nat,
    maxTarBytes: nat,
    maxTarEntryBytes: nat)

  datatype Configuration = Configuration(limits: LimitsSection, clients: seq<ClientEntry>)

  datatype ConfigError =
    | MinTtlNotPositive
    | MinTtlNotBelowMax
    | NoClustersAllowed
    | NoTarBytes
    | NoTarEntryBytes
    | TarEntryOverTotal
    | NoClients
    | MalformedHash(index: nat)
    | SharedUnixUser(index: nat)

  /** The numeric constraints, in the order in which they are checked. */
  function LimitsProblem(limits: LimitsSection): Option<ConfigError> {
    if limits.minTtlSecs <= 0 then Some(MinTtlNotPositive)
    else if limits.minTtlSecs >= limits.maxTtlSecs then Some(MinTtlNotBelowMax)
    else if limits.maxClustersPerUser == 0 then Some(NoClustersAllowed)
    else if limits.maxTarBytes == 0 then Some(NoTarBytes)
    else if limits.maxTarEntryBytes == 0 then Some(NoTarEntryBytes)
    else if limits.maxTarEntryBytes > limits.maxTarBytes then Some(TarEntryOverTotal)
    else None
  }

  /** An earlier entry has the account of the `i`-th. */
  ghost predicate Repeats(clients: seq<ClientEntry>, i: nat) {
    i < |clients| && exists j :: 0 <= j < i && clients[j].unixUser == clients[i].unixUser
  }

  ghost predicate DistinctUsers(clients: seq<ClientEntry>) {
    forall i, j :: 0 <= i < j < |clients| ==> clients[i].unixUser != clients[j].unixUser
  }

  /** The first constraint violated, in the order in which they are checked. */
  ghost predicate FirstProblem(config: Configuration, problem: ConfigError) {
    if LimitsProblem(config.limits).Some? then LimitsProblem(config.limits) == Some(problem)
    else if config.clients == [] then problem == NoClients
    else if exists i :: 0 <= i < |config.clients| && !config.clients[i].hashParses then
      && problem.MalformedHash? && problem.index < |config.clients| && !config.clients[problem.index].hashParses
      && forall i :: 0 <= i < problem.index ==> config.clients[i].hashParses
    else
      && problem.SharedUnixUser? && Repeats(config.clients, problem.index)
      && forall i: nat :: i < problem.index ==> !Repeats(config.clients, i)
  }

  ghost predicate Valid(config: Configuration) {
    && 0 < config.limits.minTtlSecs < config.limits.maxTtlSecs
    && 0 < config.limits.maxClustersPerUser
    && 0 < config.limits.maxTarEntryBytes <= config.limits.maxTarBytes
    && config.clients != []
    && (forall i :: 0 <= i < |config.clients| ==> config.clients[i].hashParses)
    && DistinctUsers(config.clients)
  }

  /** Accepts exactly the valid configurations, and names the first violation of any other. */
  method Validate(config: Configuration) returns (outcome: Result<(), ConfigError>)
    ensures outcome.Ok? <==> Valid(config)
    ensures outcome.Err? ==> FirstProblem(config, outcome.error)
  {
    if LimitsProblem(config.limits).Some? {
      return Err(LimitsProblem(config.limits).value);
    }
    if config.clients == [] {
      return Err(NoClients);
    }
    for i := 0 to |config.clients|
      invariant forall k :: 0 <= k < i ==> config.clients[k].hashParses
    {
      if !config.clients[i].hashParses {
        return Err(MalformedHash(i));
      }
    }
    var seen: set<string> := {};
    for i := 0 to |config.clients|
      invariant seen == set k | 0 <= k < i :: config.clients[k].unixUser
      invariant forall k: nat :: k < i ==> !Repeats(config.clients, k)
    {
      if config.clients[i].unixUser in seen {
        return Err(SharedUnixUser(i));
      }
      seen := seen + {config.clients[i].unixUser};
    }
    forall i, j | 0 <= i < j < |config.clients| ensures config.clients[i].unixUser != config.clients[j].unixUser {
      assert !Repeats(config.clients, j);
    }
    outcome := Ok(());
  }

  /** What an error says about the configuration, and about the constraints checked before it. */
  lemma ProblemsTell(config: Configuration, problem: ConfigError)
    requires FirstProblem(config, problem)
    ensures var l, clients := config.limits, config.clients;
            match problem
            case MinTtlNotPositive => l.minTtlSecs <= 0
            case MinTtlNotBelowMax => 0 < l.minTtlSecs && l.minTtlSecs >= l.maxTtlSecs
            case NoClustersAllowed => 0 < l.minTtlSecs < l.maxTtlSecs && l.maxClustersPerUser == 0
            case NoTarBytes => 0 < l.maxClustersPerUser && l.maxTarBytes == 0
            case NoTarEntryBytes => 0 < l.maxTarBytes && l.maxTarEntryBytes == 0
            case TarEntryOverTotal => l.maxTarEntryBytes > l.maxTarBytes > 0
            case NoClients => 0 < l.maxTarEntryBytes <= l.maxTarBytes && clients == []
            case MalformedHash(i) => i < |clients| && !clients[i].hashParses && forall j :: 0 <= j < i ==> clients[j].hashParses
            case SharedUnixUser(i) =>
              && i < |clients| && (forall j :: 0 <= j < |clients| ==> clients[j].hashParses)
              && (exists j :: 0 <= j < i && clients[j].unixUser == clients[i].unixUser)
              && forall j, k :: 0 <= j < k < i ==> clients[j].unixUser != clients[k].unixUser
  {
    if problem.SharedUnixUser? {
      forall j, k | 0 <= j < k < problem.index ensures config.clients[j].unixUser != config.clients[k].unixUser {
        assert !Repeats(config.clients, k);
      }
    }
  }

  datatype Account = Account(uid: nat, gid: nat)

  /** Entry `i` is the last one for `client`: a later entry for the same name replaces an earlier one. */
  ghost predicate LastEntry(clients: seq<ClientEntry>, client: ClientId, i: nat) {
    && i < |clients| && ClientId(clients[i].name) == client
    && forall j :: i < j < |clients| ==> ClientId(clients[j].name) != client
  }

  /** Every client named has the account of its last entry, and nobody else has one. */
  ghost predicate Resolves(clients: seq<ClientEntry>, passwd: map<string, Account>, accounts: map<ClientId, WorkerUser>) {
    && (forall i :: 0 <= i < |clients| ==> clients[i].unixUser in passwd && ClientId(clients[i].name) in accounts)
    && (forall client :: client in accounts ==>
          exists i: nat :: && LastEntry(clients, client, i) && clients[i].unixUser in passwd
                           && accounts[client].name == clients[i].unixUser
                           && accounts[client].uid == passwd[clients[i].unixUser].uid
                           && accounts[client].gid == passwd[clients[i].unixUser].gid)
  }

  /** Looks every client's account up; the first one that is missing fails the whole startup. */
  method ResolveClientWorkers(clients: seq<ClientEntry>, passwd: map<string, Account>)
    returns (accounts: Result<map<ClientId, WorkerUser>, string>)
    ensures accounts.Ok? <==> forall i :: 0 <= i < |clients| ==> clients[i].unixUser in passwd
    ensures accounts.Ok? ==> Resolves(clients, passwd, accounts.value)
    ensures accounts.Err? ==>
              exists i :: && 0 <= i < |clients| && clients[i].unixUser == accounts.error && accounts.error !in passwd
                          && forall j :: 0 <= j < i ==> clients[j].unixUser in passwd
  {
    var found: map<ClientId, WorkerUser> := map[];
    for n := 0 to |clients|
      invariant Resolves(clients[..n], passwd, found)
    {
      var client := clients[n];
      assert forall j :: 0 <= j < n ==> clients[..n][j] == clients[j];
      if client.unixUser !in passwd {
        return Err(client.unixUser);
      }
      ResolvesMore(clients[..n], client, passwd, found);
      assert clients[..n + 1] == clients[..n] + [client];
      var account := passwd[client.unixUser];
      found := found[ClientId(client.name) := WorkerUser(client.unixUser, account.uid, account.gid)];
    }
    assert clients[..|clients|] == clients;
    accounts := Ok(found);
  }

  lemma ResolvesMore(clients: seq<ClientEntry>, last: ClientEntry, passwd: map<string, Account>, accounts: map<ClientId, WorkerUser>)
    requires Resolves(clients, passwd, accounts) && last.unixUser in passwd
    ensures Resolves(clients + [last], passwd,
                     accounts[ClientId(last.name) :=
                              WorkerUser(last.unixUser, passwd[last.unixUser].uid, passwd[last.unixUser].gid)])
  {
    var worker := WorkerUser(last.unixUser, passwd[last.unixUser].uid, passwd[last.unixUser].gid);
    var more, after := clients + [last], accounts[ClientId(last.name) := worker];
    forall client | client in after
      ensures exists i: nat :: && LastEntry(more, client, i) && more[i].unixUser in passwd
                               && after[client].name == more[i].unixUser
                               && after[client].uid == passwd[more[i].unixUser].uid
                               && after[client].gid == passwd[more[i].unixUser].gid
    {
      if client == ClientId(last.name) {
        assert more[|clients|] == last;
        assert LastEntry(more, client, |clients|);
      } else {
        var i: nat :| && LastEntry(clients, client, i) && clients[i].unixUser in passwd
                      && accounts[client].name == clients[i].unixUser
                      && accounts[client].uid == passwd[clients[i].unixUser].uid
                      && accounts[client].gid == passwd[clients[i].unixUser].gid;
        assert more[i] == clients[i];
        assert LastEntry(more, client, i);
      }
    }
  }

  /** The settings the lifecycle runs under. */
  function SettingsOf(config: Configuration, grace: Duration, accounts: map<ClientId, WorkerUser>, kinds: set<ServiceKind>): Settings {
    Settings(config.limits.maxClustersPerUser, Seconds(config.limits.minTtlSecs), Seconds(config.limits.maxTtlSecs),
             grace, accounts, kinds)
  }

  /** A valid configuration keeps clients' directories apart: no two clients run as one account. */
  lemma ValidMeansDistinctAccounts(config: Configuration, passwd: map<string, Account>,
                                   accounts: map<ClientId, WorkerUser>, grace: Duration, kinds: set<ServiceKind>)
    requires Valid(config) && Resolves(config.clients, passwd, accounts)
    ensures DistinctAccounts(SettingsOf(config, grace, accounts, kinds))
  {
    var clients := config.clients;
    forall a, b | a in accounts && b in accounts && accounts[a].name == accounts[b].name ensures a == b {
      var i: nat :| LastEntry(clients, a, i) && accounts[a].name == clients[i].unixUser;
      var j: nat :| LastEntry(clients, b, j) && accounts[b].name == clients[j].unixUser;
      assert clients[i].unixUser == clients[j].unixUser;
    }
  }

  /** Startup from a configuration file: the accounts of a configuration that passes are distinct. */
  method Load(config: Configuration, passwd: map<string, Account>, grace: Duration, kinds: set<ServiceKind>)
    returns (settings: Option<Settings>)
    ensures settings.Some? <==>
              Valid(config) && forall i :: 0 <= i < |config.clients| ==> config.clients[i].unixUser in passwd
    ensures settings.Some? ==>
              && DistinctAccounts(settings.value)
              && 0 < settings.value.minTtl < settings.value.maxTtl && 0 < settings.value.maxClustersPerUser
              && settings.value.minTtl == config.limits.minTtlSecs * 1_000_000_000
              && settings.value.maxTtl == config.limits.maxTtlSecs * 1_000_000_000
              && settings.value.maxClustersPerUser == config.limits.maxClustersPerUser
              && settings.value.failedGrace == grace && settings.value.backends == kinds
              && Resolves(config.clients, passwd, settings.value.accounts)
  {
    var valid := Validate(config);
    if valid.Err? {
      return None;
    }
    var accounts := ResolveClientWorkers(config.clients, passwd);
    match accounts {
      case Err(_) => return None;
      case Ok(found) =>
        ValidMeansDistinctAccounts(config, passwd, found, grace, kinds);
        settings := Some(SettingsOf(config, grace, found, kinds));
    }
  }
}
