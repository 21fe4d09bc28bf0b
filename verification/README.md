# Cluster lifecycle: model and proofs

The service hands out short-lived database clusters. A cluster is a durable row, some containers and
a network, and a directory of its owner's account. Request handlers, one background spawn task per
cluster, teardown tasks, a reaper and a startup pass all work on the same rows, and the process may
die between any two of their calls. This project models that protocol as a transition system and
proves what it keeps on every run; and it models the repository, the sweeps, the container backends,
the health wait, the upload checks, the configuration check and the log rotation as the classes,
methods and loops they are, each proved against a specification whose properties are then proved.

`dafny verify dfyconfig.toml` checks everything.

## How it is laid out

- `Domain`, `Allocator`: the values, the state machine of a cluster, directory slots.
- `Lifecycle`: the protocol. A state holds the rows, the resources and directories outside the
  process, the token registry, a program counter per spawn task, the list of delete requests, reaper
  decisions and teardowns with theirs, and the clock. One step is one repository, executor or runtime
  call, with every way it can end as a parameter. `Crash` may happen anywhere; it drops tasks and
  tokens, keeps rows and resources, and the startup pass must run before anything is served. The ghost
  set `leaked` names clusters of which a *failed* teardown call left something.
- `LifecycleInvariant`, `LifecycleSummary`: the inductive invariant, and per-kind summaries of what a
  step can change.
- `LifecycleSafety`: what holds with no assumption on scheduling, faults or crashes. What is said about
  directories takes clients to have distinct accounts (`DistinctAccounts`), which `Config` derives from
  a valid configuration.
- `LifecycleOneTearer`, `LifecycleDelete`, `LifecycleProgress`: what needs a hypothesis, and how
  everything in progress comes to an end.
- `LifecycleExact`: step by step and run by run, exactly when the guarantees that need a hypothesis hold.
- `LifecycleOutcome`: who has torn a cluster down by the time its row is gone, and that a decision of the
  reaper is carried out.
- `LifecycleSpawn`, `LifecycleCauses`: what a spawn leaves in its row and outside, when a failed cluster goes, and
  why a row is Deleting.
- `LifecycleWitness`: concrete runs without those hypotheses.
- `Persistence`, `Repository`, `RepositoryRefinement`: the stored form, the SQLite and the in-memory
  repository, and how far they agree.
- `ClusterService`, `TaskRegistry`, `Handlers`, `TeardownTask`, `Reconciliation`, `TtlReaper`,
  `SpawnTask`, `ServiceSteps`: the services as they run, over the repository, and the protocol steps
  they take.
- `Names`, `HealthWait`, `Backends`, `BackendSteps`: how containers are named, waited for, created and removed,
  and that this is what the protocol says of them.
- `TarValidation`, `ProjectUpload`, `Config`, `LogRotation`: upload limits, the way of an upload through
  its staging directory, configuration, log retention.

Replies of the database, the container runtime, the privileged executor, the filesystem and the clock
are parameters: single values, or functions from the call (`nat`, `ClusterId`) to its reply.

## Two hypotheses, and where the code promises more than it gives

`request_delete` reads a row and writes it back in two repository calls
(`src/service/cluster_service.rs:228-243`), and so does the end of a spawn task
(`src/service/spawn_task.rs:324-375`). Two guarantees rest on those pairs not being separated:

- `AtomicDelete`: while one delete request is between its read and its write, no other task steps on
  that cluster.
- `AtomicConclusion`: the same for the spawn task's re-check and final write, and the re-check does
  not fail (the fallback at `src/service/spawn_task.rs:331-334` uses stale state).

`src/service/cluster_service.rs:36-37` says that exactly one task ever tears a cluster down. At most one
does under `AtomicDelete`; exactly one does under both hypotheses, as long as the repository answers
(`BothMeanExactlyOneTearsDown`). Three runs in which no call fails show that neither can be dropped:

- `TwoTearersWithoutAtomicity`: two requests read the Ready row before either writes, both start a
  teardown, and the second wipes a directory that by then belongs to another cluster.
- `DeleteCanBeForgotten`: a request reads the row while it is Spawning and writes it back when it is Ready.
  It leaves the teardown to a spawn task that has ended, and the row stays Deleting, with its container
  running, until a restart.
- `DeleteCanBeLost`: an atomic delete falls between the re-check of a spawn task and its final write. The
  task it relies on overwrites it; the row ends Ready, the container runs on, nobody has torn anything
  down. This is also what `src/service/spawn_task.rs:317-323` says the re-check prevents.

`ExactlyOneExactly` and `RunExactlyOne` give the exact condition, for any step and any run whatever fails in
it. A write-back must start a teardown if and only if the row it overwrites is still Ready or Failed, and
must not come while the cluster's spawn task is between its re-check and its final write; a re-check must
not fail on a Deleting row; and no call may fail that is the last one to answer for its row (`Abandons`).
`SecondTearerExactly` and `NoTearerExactly` decide each direction by itself, and the run results that rest on
the hypotheses are also proved from these conditions alone (`OneTearerUnlessLate`,
`NothingForgottenMeansSettled`, `ExactlyOneTearsDown`). `LostDeleteExactly` says which of all steps take a
row down, and `DeleteStaysExactly` exactly when an accepted delete keeps its time and reason over a run.

`src/service/deps.rs:42-43` says that staging directories are per cluster id and that nothing in them
outlives a spawn attempt. They are per account and slot (`src/service/spawn_task.rs:108`), and a call
that fails to set the directory's mode returns before the removal, and a failed removal is only logged
(`src/service/spawn_task.rs:119-130`, `src/service/spawn_task.rs:162-164`); the next upload for that
account and slot then brings along what it does not rewrite itself. `ProjectUpload.AdoptInto` gives the
exact condition, `OldFileArrives` an input that fails it and `RetryArrives` one that meets it.

## Model

| member | source | states |
|---|---|---|
| Domain.TransitionsGoUp | src/domain/cluster.rs:223-272 | a delete applies in every state, every other event in Spawning only; no event lowers the order Spawning, Ready, Failed, Deleting, and Deleting keeps its time and reason |
| Domain.FirstDeleteDecides | src/domain/cluster.rs:223-272 | over any sequence of events the first delete fixes the final state |
| Allocator.FirstFree | src/adapters/sqlite_repository.rs:667-673 | the result is the smallest slot in range that is not used, or every slot is used |
| Allocator.UnderQuotaHasFreeSlot | src/adapters/sqlite_repository.rs:655-673 | pigeonhole: with fewer used slots than the limit a free one exists |
| Allocator.QuotaFromSlots | src/adapters/sqlite_repository.rs:653-660 | distinct slots below the limit bound an owner's rows by the limit |
| LifecycleInvariant.StepKeeps | src/service/spawn_task.rs:299-381 | every step of every task, the environment and a crash keeps the invariant that ties rows, resources, directories, tokens and program counters together |
| LifecycleInvariant.RunInv | src/main.rs:212-291 | the invariant holds in every state of every run |
| LifecycleSummary.StepExplained | src/service/reconciliation.rs:39-94 | every change a step can make to a row: inserted Spawning, removed only when Deleting and cleared outside, or its state rewritten by a named cause |
| LifecycleSummary.StepSummary | src/service/ttl_reaper.rs:107-130 | what a step of any kind can change in rows, tasks, spawn tasks, phase and teardown history |
| LifecycleSafety.NoOrphans | src/service/spawn_task.rs:244-280 | in every reachable state, crashes included, a container, network or directory content has a row that already records its account and slot, or its cluster is one a failed teardown call left something of |
| LifecycleSafety.OnlyFailuresLeak | src/service/teardown_task.rs:33-53 | nothing but a failed backend or directory call of its teardown makes a cluster one whose leftovers are excepted |
| LifecycleSafety.LeaksHaveCauses | src/service/teardown_task.rs:33-53 | in any run such a cluster has a failed call of its teardown behind it |
| LifecycleSafety.FootprintBound | src/adapters/sqlite_repository.rs:653-683 | under an owner's account there are never containers, networks or data of more clusters than the quota, leftovers of failed teardown calls aside; in a run in which no teardown call has failed there are none, and every resource belongs to a row |
| LifecycleSafety.QuotaHolds | src/adapters/sqlite_repository.rs:653-683 | rows per owner within the quota, slots distinct and below it, in every reachable state |
| LifecycleSafety.UnderQuotaAlwaysFits | src/adapters/sqlite_repository.rs:655-673 | in any state an insert within bounds is possible if and only if the owner is under quota |
| LifecycleSafety.DirectoryExclusive | src/client_workers.rs:52-54 | two clusters never have data in one directory, nor containers mounted on one, nor one its data and the other a container, leftovers of failed teardown calls aside |
| LifecycleSafety.SpawnsApart | src/service/spawn_task.rs:68-110 | two spawn tasks at work never share an account and slot |
| LifecycleSafety.CleanStart | src/service/teardown_task.rs:39-57 | a cluster just given a slot finds its directory empty and nothing mounted on it, failed teardown calls aside |
| LifecycleSafety.SpawnOwnsItsCluster | src/service/spawn_task.rs:299-381 | while a spawn task is live its row exists and is Spawning or Deleting, and no other task tears the cluster down or is about to |
| LifecycleSafety.SpawnArmsUnreachable | src/service/spawn_task.rs:324-380 | the arms for a vanished row and for an inapplicable transition are never taken |
| LifecycleSafety.RegistryExact | src/service/deps.rs:56-123 | a token is registered exactly for the launched spawn tasks still in flight |
| LifecycleSafety.ReaperNeverCancels | src/service/ttl_reaper.rs:117-127 | the reaper is never told to cancel a spawn |
| LifecycleSafety.ReadyRowsEndOnTime | src/service/spawn_task.rs:344-352 | every Ready row ends exactly the requested time after it became ready, and that time is within the bounds |
| LifecycleSafety.NeverExpiredEarly | src/service/ttl_reaper.rs:65-95 | no Ready row is deleted as expired before its time, although the decision is taken on an older snapshot |
| LifecycleSafety.RowGoesLast | src/service/teardown_task.rs:32-58 | a row disappears only from Deleting, and only when nothing of its cluster is left outside, failed teardown calls aside |
| LifecycleSafety.GoneForever | src/service/cluster_service.rs:133-145 | an id whose row is gone never has a row again, whatever the schedule, faults and crashes |
| LifecycleOneTearer.OneTearerKeeps | src/service/cluster_service.rs:222-259 | with atomic delete requests every step keeps claims on a cluster unique and current |
| LifecycleOneTearer.AtMostOneTearer | src/service/cluster_service.rs:222-259 | with atomic delete requests at most one task since the last start has torn a given cluster down |
| LifecycleOneTearer.OneTearerUnlessLate | src/service/cluster_service.rs:222-259 | the same, whatever the schedule and the faults, as long as no write-back starts a teardown of a row that is not Ready or Failed any more |
| LifecycleOneTearer.WipeHitsOwnDataOnly | src/service/teardown_task.rs:39-53 | under that condition a teardown task still holds its row, and the directory it wipes holds its own data or leftovers of failed calls |
| LifecycleOneTearer.SpawnWipeHitsOwnDataOnly | src/service/spawn_task.rs:305-341 | the same of the wipe a spawn task makes itself, with no condition on scheduling |
| LifecycleProgress.InternalShrinks | src/service/spawn_task.rs:299-381 | every step of a task or of the startup pass lowers a measure of the work left |
| LifecycleProgress.InternalRunsEnd | src/service/teardown_task.rs:32-71 | no schedule of such steps, whatever faults occur, is longer than the measure |
| LifecycleProgress.QuietMeansSettled | src/service/spawn_task.rs:305-341 | with a repository that answers and atomic delete requests, a state with no task left has no Spawning and no Deleting row, whatever container, executor and probe calls fail |
| LifecycleProgress.NothingForgottenMeansSettled | src/service/spawn_task.rs:305-341 | the same from the exact conditions in place of the hypotheses: no write-back leaves a Ready or Failed row to others, and no failed call abandons its row |
| LifecycleProgress.NeverStuck | src/service/deps.rs:97-123 | a state with work left has a task that can go on |
| LifecycleProgress.Drains | src/service/teardown_task.rs:55-57 | from any such reachable state letting the tasks go on ends, within the measure, in a state with Ready and Failed rows only |
| LifecycleDelete.RowsOnlyGoUp | src/domain/cluster.rs:223-272 | under both hypotheses rows only move up the order Spawning, Ready, Failed, Deleting, gone |
| LifecycleDelete.AcceptedDeleteStays | src/service/spawn_task.rs:317-341 | under both hypotheses an accepted delete keeps its time and reason until the row is gone |
| LifecycleDelete.AcceptedDeleteHappens | src/service/cluster_service.rs:222-259 | and has removed its row by the time the tasks have run out |
| LifecycleExact.SecondTearerExactly | src/service/cluster_service.rs:228-252 | any step, whatever fails, leaves at most one task committed to tearing each cluster down if and only if it is not a write-back that starts a teardown of a cluster another task is committed to |
| LifecycleExact.CoveredExactly | src/service/spawn_task.rs:344-381 | which failed calls and which write-backs leave a row half way without a live task or a place on the startup list: exactly these, of all steps |
| LifecycleExact.NonePastRecheckExactly | src/service/spawn_task.rs:324-358 | exactly which steps put a delete between the re-check of a spawn task and its final write |
| LifecycleExact.NoTearerExactly | src/service/cluster_service.rs:228-252 | any step, whatever fails, leaves every row half way with somebody who will bring it to its end if and only if it is not a write-back that leaves a Ready or Failed row to others or comes past a re-check, a failed re-check that overlooks a delete, or a failed call that abandons its row |
| LifecycleExact.OneForEachMeans | src/service/cluster_service.rs:36-44 | where claims are unique and every row is attended, exactly one task, an entry of the task list or a spawn that has not passed its re-check, will tear each Deleting cluster down |
| LifecycleExact.ExactlyOneExactly | src/service/cluster_service.rs:228-252 | any step, whatever fails, keeps that if and only if it does not stray: no write-back that misjudges its row or comes past a re-check, no re-check that overlooks a delete, no failed call that abandons its row |
| LifecycleExact.WriteBackExactly | src/service/cluster_service.rs:228-252 | after a write-back exactly one task will tear the cluster down if and only if it started a teardown just when the row was still Ready or Failed and no spawn task of the cluster had passed its re-check |
| LifecycleExact.RunExactlyOne | src/service/cluster_service.rs:222-259 | any run, whatever fails in it, has exactly one task for each cluster going down at every moment if and only if no step in it strays |
| LifecycleExact.AtomicNeverMisjudges | src/service/cluster_service.rs:228-243 | atomic delete requests never misjudge |
| LifecycleExact.AtomicNeverStrays | src/service/spawn_task.rs:324-375 | under both hypotheses and with a repository that answers no step strays |
| LifecycleExact.BothMeanExactlyOne | src/service/cluster_service.rs:36-44 | so exactly one task will tear down each Deleting cluster at every moment while serving |
| LifecycleExact.LostDeleteExactly | src/service/spawn_task.rs:324-375 | of all steps of the protocol exactly the final write of a spawn over a row that has become Deleting takes a row down the order |
| LifecycleExact.AcceptedDeleteChangesExactly | src/adapters/sqlite_repository.rs:847-874 | exactly that write, and the write-back of a delete with another time or reason, change an accepted delete |
| LifecycleExact.DeleteStaysExactly | src/service/spawn_task.rs:317-341 | in any run an accepted delete keeps its time and reason until its row is gone if and only if no such step occurs |
| LifecycleExact.UnchangedDeleteHappens | src/service/cluster_service.rs:222-259 | such a delete, in a run that forgets and abandons no row, has removed its row by the time the tasks have run out |
| LifecycleOutcome.GoneMeansTorn | src/service/teardown_task.rs:32-58 | unless the process dies in between, a row that has disappeared has been torn down by a task on record |
| LifecycleOutcome.ExactlyOneTearsDown | src/service/cluster_service.rs:36-44 | in a run in which no step strays an accepted delete has removed its row by the time the tasks have run out, and exactly one task has torn the cluster down if the process has not died since |
| LifecycleOutcome.BothMeanExactlyOneTearsDown | src/service/cluster_service.rs:36-44 | the same from the two hypotheses and a repository that answers |
| LifecycleOutcome.ReaperDecisionHappens | src/service/ttl_reaper.rs:65-127 | in a run of a repository that answers and that forgets no row, a cluster the reaper decided on is gone the next time the tasks have run out, if the process has not died since |
| LifecycleSpawn.FinalWriteExactly | src/service/spawn_task.rs:343-379 | in any reachable state the final write of a spawn makes its row Ready from that moment for the requested time with the connection returned, or Failed at that moment with the summary; one that fails changes nothing |
| LifecycleSpawn.RunFinalWrite | src/service/spawn_task.rs:343-379 | the same of every final write in every run |
| LifecycleSpawn.ReadyIsComplete | src/backends/supabase.rs:702-715 | in every state of every run, crashes and faults included, a Ready cluster has its container, or its network and all of db, rest, auth, kong and functions, on the directory its row names |
| LifecycleSpawn.CancelReachesSpawn | src/http/handlers.rs:556-558 | a delete that found its cluster Spawning sets the token of that spawn and of no other, and a spawn at work can then stop between any two calls |
| LifecycleSpawn.NeverReapedEarly | src/service/ttl_reaper.rs:31-45 | no Failed row is deleted for having failed before its grace has passed since the failure, although the decision is taken on an older snapshot |
| LifecycleCauses.DeletesHaveCauses | src/service/cluster_service.rs:222-259 | in every state of every run the reason in a Deleting row goes back to a request of its owner, to a sweep that found the cluster expired or failed past its grace, or to a startup pass that found it Spawning |
| LifecycleCauses.RestartFindsEverything | src/main.rs:212-291 | a restart after a crash at any point finds every row, resource and directory as they were and puts every row on its list; if listing fails it serves anyway |
| LifecycleWitness.DeleteCanBeLost | src/service/spawn_task.rs:324-358 | a run without failures, with atomic delete requests, in which a row goes from Deleting back to Ready and all tasks end with the container running and nobody having torn anything down |
| LifecycleWitness.TwoTearersWithoutAtomicity | src/service/cluster_service.rs:228-252 | a run in which two tasks tear one cluster down and the second wipes another cluster's directory |
| LifecycleWitness.DeleteCanBeForgotten | src/service/cluster_service.rs:228-252 | a run without failures that ends with no task left, a row Deleting and its container running, passed over by the sweep and by further deletes |
| Persistence.StateRoundTrip | src/adapters/sqlite_repository.rs:258-327 | the stored mirror of a state and the state determine each other |
| Persistence.StoredExactly | src/adapters/sqlite_repository.rs:408-417 | each stored field holds the live field of its name, variant by variant |
| Persistence.RoundTrip | src/adapters/sqlite_repository.rs:408-446 | reading back what was written is the cluster itself exactly when its time to live is whole seconds, and otherwise loses only the fraction |
| Persistence.RoundingIsShort | src/adapters/sqlite_repository.rs:411 | the seconds stored times 1,000,000,000 are at most the time to live and less than a second below it, and towards zero for a negative one |
| Persistence.WriteBack | src/adapters/sqlite_repository.rs:847-912 | writing back what was read changes nothing |
| Repository.FindFreeSlot | src/adapters/sqlite_repository.rs:667-673 | the search loop finds the smallest free slot |
| Repository.SqliteRepository.TryInsertIfUnderQuota | src/adapters/sqlite_repository.rs:632-686 | outcome and table of the insert transaction, with unparseable rows counted but their slots passed over |
| Repository.SqliteRepository.GetOwned | src/adapters/sqlite_repository.rs:705-726 | the row only if the owner matches; a row that does not parse is an error |
| Repository.SqliteRepository.ListByOwner | src/adapters/sqlite_repository.rs:775-798 | every row of the owner once, or an error if any of them does not parse |
| Repository.SqliteRepository.ListAll | src/adapters/sqlite_repository.rs:809-832 | every row once, or an error if any does not parse |
| Repository.SqliteRepository.UpdateState | src/adapters/sqlite_repository.rs:847-874 | only the state of that blob changes; a missing row and an unparseable blob are errors |
| Repository.SqliteRepository.SetWorker | src/adapters/sqlite_repository.rs:889-912 | only the worker of that blob changes; a missing row and an unparseable blob are errors |
| Repository.SqliteRepository.Delete | src/adapters/sqlite_repository.rs:925-933 | removes the row, if there is one |
| Repository.InMemoryRepository.TryInsertIfUnderQuota | src/test_support.rs:38-61 | outcome and rows of the insert into the simple map |
| RepositoryRefinement.InsertFindsSmallestSlot | src/adapters/sqlite_repository.rs:653-683 | on any table the missing-slot error is impossible, the outcomes are exactly decided by count and id, and an insert takes the smallest slot free among the readable rows |
| RepositoryRefinement.AnswersExactly | src/adapters/sqlite_repository.rs:705-912 | what each read, list and rewrite answers on a missing, a foreign, a garbled and a readable row |
| RepositoryRefinement.StepAgreesExactly | src/test_support.rs:37-120 | every operation answers as on the map and commutes with decoding if and only if inserted ids are fresh with whole-second times to live and updated rows exist |
| RepositoryRefinement.HistoriesAgree | src/test_support.rs:37-120 | over any history of such operations the two repositories are indistinguishable |
| RepositoryRefinement.HistoriesKeepSlots | src/adapters/sqlite_repository.rs:641-684 | after any history at all, limits changing from call to call, no two rows of an owner share a slot and counts and slots stay within the largest limit used |
| ClusterService.ClusterService.Create | src/service/cluster_service.rs:119-159 | result and table of a create: a new cluster is Spawning from now, without an account, in the slot the insert found |
| ClusterService.ClusterService.RequestDelete | src/service/cluster_service.rs:222-259 | result and table of a delete request |
| ClusterService.CreateExactly | src/service/cluster_service.rs:119-159 | a create succeeds exactly within bounds, under quota and with a fresh id; it leaves the returned cluster in the table; a refusal leaves the table alone and carries the requested time and the bounds, or the limit, in their places |
| ClusterService.DeleteExactly | src/service/cluster_service.rs:222-259 | a request succeeds exactly for the owner of an existing row, leaves it Deleting and everything else alone, and names the follow-up by the state it found |
| ClusterService.OnlyFirstIsToldToAct | src/service/cluster_service.rs:36-44 | of any requests served one after another only the first accepted one is told to do anything, and it fixes time and reason |
| TaskRegistry.Registry.Register | src/service/deps.rs:97-101 | a fresh token is registered, not cancelled |
| TaskRegistry.Registry.Cancel | src/service/deps.rs:109-113 | the token of that cluster is cancelled and no other |
| TaskRegistry.Registry.Unregister | src/service/deps.rs:121-123 | the entry is removed |
| TaskRegistry.CancelReachesTheSpawn | src/service/deps.rs:97-123 | a cancel reaches the token handed out, and does nothing once the spawn has left |
| Handlers.AppState.LaunchSpawn | src/http/handlers.rs:265-274 | the token is registered and handed to the task started |
| Handlers.AppState.CreateCluster | src/http/handlers.rs:426-431 | a task is started exactly if a row was inserted, on the cluster as inserted |
| Handlers.AppState.DeleteCluster | src/http/handlers.rs:551-567 | cancels, starts a teardown or does nothing, as the request's outcome says |
| Handlers.CreateThenDelete | src/http/handlers.rs:265-274 | a delete right after a create reaches the token the task was given and starts no teardown beside it |
| ServiceSteps.DeleteIsReadThenWrite | src/service/cluster_service.rs:222-259 | a request served in one go is the protocol's read and write-back, with the same follow-up |
| ServiceSteps.CreateIsInsert | src/http/handlers.rs:426-431 | a create succeeds exactly when the protocol's insert is enabled and has its effect |
| ServiceSteps.SpawnWritesAreRewrites | src/service/spawn_task.rs:244-246 | the protocol's writes of account and conclusion are the repository's rewrites |
| TeardownTask.TearDown | src/service/teardown_task.rs:32-58 | backend, directory and row as their calls answered, each call made whatever became of the others, in this order |
| TeardownTask.RowIsLast | src/service/teardown_task.rs:32-58 | the calls of a teardown in full: backend, directory, row, the first only of a registered kind and the second only of a cluster with an account |
| TeardownTask.LeftExactly | src/service/teardown_task.rs:32-58 | which resources and directory contents are left by calls that succeed and by calls that fail part of the way |
| TeardownTask.TeardownIsThreeSteps | src/service/teardown_task.rs:32-71 | undisturbed, a teardown is the three protocol steps |
| SpawnTask.AssignWorker | src/service/spawn_task.rs:229-246 | the account is looked up and persisted before anything is prepared; on success the row holds the account of its owner, and the one call made is the persisting |
| SpawnTask.PrepareOne | src/service/spawn_task.rs:248-275 | one privileged call, which one, and what it may leave in the cluster's own directory |
| SpawnTask.CreateOne | src/backends/supabase.rs:702-715 | one creation, and the resource it may leave, on the cluster's own directory |
| SpawnTask.PrepareDirectories | src/service/spawn_task.rs:248-275 | privileged calls one at a time, a first part of the fixed list of them, stopping at the first failure or when the token fires |
| SpawnTask.DoSpawn | src/service/spawn_task.rs:229-281 | however a spawn ends, its calls are a first part of a fixed list; one that connects has persisted the account, prepared the directory (and adopted the upload), then created its container, or network, db, rest, auth, kong and functions in this order, all of which exist |
| SpawnTask.Conclude | src/service/spawn_task.rs:317-381 | the row is read again; a missing or Deleting row means the three teardown calls and nothing else; a Spawning row becomes Ready from that moment for the requested time with the connection, or Failed at that moment with the summary, or stays as it is if the write fails |
| SpawnTask.Run | src/service/spawn_task.rs:299-381 | the whole task takes protocol moves only and ends about to leave the registry, whether cancelled or not; a row still Spawning becomes Ready or Failed as of the conclusion |
| SpawnTask.PrivilegedCallsExactly | src/service/spawn_task.rs:248-275 | the privileged calls of each kind, written out |
| SpawnTask.CreationsExactly | src/backends/supabase.rs:265 | the creations of each kind, written out |
| SpawnTask.CreatedExactly | src/backends/supabase.rs:702-715 | what exists, name by name, when everything planned has been made |
| SpawnTask.ScriptDecides | src/service/spawn_task.rs:299-381 | the answers to its calls alone decide in which state a task that is not cancelled ends |
| ProjectUpload.Upload.Adopt | src/service/spawn_task.rs:101-167 | when an upload is accepted, what the project directory holds afterwards path by path, and what a removal that succeeds or fails leaves in the staging directory |
| ProjectUpload.ArrivesExactly | src/adapters/sudo_exec.rs:80-90 | copying leftovers and upload over the project gives what copying the upload alone would if and only if every leftover path is rewritten or already there with the same content |
| ProjectUpload.PartsExactly | src/service/spawn_task.rs:162-164 | what a copy and a removal that fail have done: exactly the paths named |
| ProjectUpload.AdoptInto | src/service/spawn_task.rs:101-167 | an accepted upload arrives as it was sent if and only if every leftover path is one it rewrites, or holds what the project has there anyway |
| ProjectUpload.AdoptTwice | src/service/spawn_task.rs:162-164 | an accepted upload arrives as it was sent when the call before, if it staged anything, removed it |
| ProjectUpload.LeftoversArrive | src/service/spawn_task.rs:162-164 | when copy and removal of one upload fail, the next brings along exactly the paths it lacks itself |
| ProjectUpload.RetryArrives | src/service/spawn_task.rs:162-164 | the same archive sent again after such a failure arrives exactly as sent |
| ProjectUpload.OldFileArrives | src/service/spawn_task.rs:162-164 | a concrete file of a first upload ends up in the project of the second |
| Reconciliation.Run | src/service/reconciliation.rs:31-95 | rows, resources and directories after a pass over any table under any faults, row by row; an unlistable or unreadable table is left alone |
| Reconciliation.RestoresConsistency | src/service/reconciliation.rs:39-94 | without faults no row is left half way, surviving Ready rows of registered kinds are alive, the Failed rows are the old ones and the dead, and nothing else changes |
| Reconciliation.PassExactly | src/service/reconciliation.rs:39-94 | what a pass makes of one row in each state under any faults: which become Deleting or Failed, with time and reason, which are removed and which stay |
| Reconciliation.SecondPassChangesNothing | src/service/reconciliation.rs:31-95 | a second pass with the same answers changes no row, no resource and no directory, faults or not |
| Reconciliation.FaultsStayLocal | src/service/reconciliation.rs:39-94 | what becomes of a row, of its resources and, directories being distinct, of what is in its directory depends on the answers to its own calls only |
| Reconciliation.RemovesExactlyTheDead | src/service/reconciliation.rs:40-61 | without faults exactly the resources and directories of the removed rows are gone |
| Reconciliation.RowStepIsProtocolStep | src/service/reconciliation.rs:39-94 | a round of the loop is the protocol's step for that row |
| TtlReaper.RunOnce | src/service/ttl_reaper.rs:65-95 | rows and results of a sweep over any table, requests that fail leaving their row for later |
| TtlReaper.Turn | src/service/ttl_reaper.rs:107-130 | a teardown is started once for each cluster the sweep moved to Deleting, and for no other |
| TtlReaper.SweepExactly | src/service/ttl_reaper.rs:31-45 | a sweep moves to Deleting precisely those Ready rows whose time has come and Failed rows past their grace whose request is answered, with the right reasons, and leaves every other row as it was |
| TtlReaper.NothingDueAfterSweep | src/service/ttl_reaper.rs:65-95 | after an answered sweep nothing is due at that time |
| TtlReaper.SweepTwice | src/service/ttl_reaper.rs:65-95 | a second sweep at once returns nothing and changes nothing |
| Names.IdTextInjective | src/backends/postgres.rs:60-62 | the 26 digits of an id determine it |
| Names.DigitsExactly | src/backends/postgres.rs:60-62 | the alphabet of ids, digit by digit |
| Names.NamesExactly | src/backends/supabase.rs:242-257 | the names of network and containers, written out |
| Names.NamesInjective | src/backends/supabase.rs:242-257 | across ids, kinds and resources no two things have the same name |
| Names.PlansAreKnown | src/backends/supabase.rs:265 | every resource the protocol creates has such a name |
| Names.WorkerDataDirInjective | src/client_workers.rs:52-54 | under one base a directory determines account and slot |
| Names.StagingPathsApart | src/service/spawn_task.rs:108 | two spawn tasks at work never stage an upload at the same path |
| HealthWait.WaitUntilHealthy | src/backends/health_wait.rs:64-110 | by its last inspection: Running, and Healthy where that is asked for, gives its own port; Exited its code; NotFound and a failed inspection their errors; otherwise it timed out at or after the deadline; every earlier inspection was Running, not Healthy, and in time; at most one more inspection than the timeout has half seconds |
| HealthWait.RulesExactly | src/backends/health_wait.rs:64-110 | which inspections are ready, which decide, and with what result, case by case |
| HealthWait.EndsExactly | src/backends/health_wait.rs:64-110 | at which inspection a wait ends, and with what result, in terms of what was seen and when |
| HealthWait.HalfSecondPollsArePaced | src/backends/health_wait.rs:64-110 | polls exactly half a second apart are among those considered |
| HealthWait.FirstDecisiveDecides | src/backends/health_wait.rs:64-110 | the first decisive inspection made in time decides; a wait that times out does so at or after the deadline, and a decisive inspection would have come an interval after it at the earliest |
| Backends.SpawnStack | src/backends/supabase.rs:702-715 | containers come up in order, each after the one before it is healthy; what exists at a failure is a prefix and possibly the next, created and perhaps started |
| Backends.StackExactly | src/backends/supabase.rs:265 | the stack, name by name and in order, and which containers have a health check |
| Backends.OrderHolds | src/backends/supabase.rs:702-715 | wherever a spawn stops, nothing has been added before what it builds on has been seen Healthy |
| Backends.AllUpStands | src/backends/supabase.rs:702-715 | a stack that is all up: every container started, four seen Healthy and the last seen running |
| Backends.SpawnSupabase | src/backends/supabase.rs:636-747 | network, configuration, stack and ports of a spawn, and when it fails; rest is added only after db has been seen Healthy, auth after both, kong after the three, functions after the four; on success all five are started and the network exists |
| Backends.RemoveStack | src/backends/supabase.rs:766-770 | containers are removed in order up to the first call that fails |
| Backends.TeardownSupabase | src/backends/supabase.rs:766-781 | the network is removed only after all five containers; success means none of them is left |
| Backends.IsAlive | src/backends/supabase.rs:797-806 | alive exactly if every container runs; the first that does not decides |
| Backends.SpawnPostgres | src/backends/postgres.rs:212-278 | the container left behind, and exactly when the spawn succeeds: then some inspection saw it running and Healthy with the port returned |
| Backends.TeardownPostgres | src/backends/postgres.rs:295-299 | exactly the one container is removed |
| Backends.TeardownReachesExactlyItsOwn | src/backends/supabase.rs:766-781 | a successful teardown leaves nothing of its cluster and touches no other cluster or kind |
| Backends.SpawnThenTeardown | src/backends/supabase.rs:636-781 | wherever a spawn stops, the teardown that follows leaves the runtime as it was |
| BackendSteps.SpawnAsPlanned | src/backends/supabase.rs:636-747 | wherever a stack spawn stops, the runtime holds the first so many resources of the protocol's plan, in its order, and nothing else new; all of them if it succeeds |
| BackendSteps.TeardownAsReplied | src/backends/supabase.rs:766-781 | wherever a stack teardown stops, it does to the recorded resources what one reply of the protocol's backend call does, a success if and only if it succeeds |
| BackendSteps.SpawnPostgresAsPlanned | src/backends/postgres.rs:212-278 | the same of the one container of a Postgres cluster |
| BackendSteps.TeardownPostgresAsReplied | src/backends/postgres.rs:295-299 | the same of its removal |
| TarValidation.ValidateAndExtract | src/domain/tar_validation.rs:157-243 | accepts exactly the archives whose every entry is in order; otherwise names the first violation in archive order, with exactly the earlier entries in place, and of that one whatever the attempt to write it left |
| TarValidation.PlacedExactly | src/domain/tar_validation.rs:157-243 | an entry puts its own node at its path, directories above it, and nothing anywhere else |
| TarValidation.ErrorsTell | src/domain/tar_validation.rs:157-243 | what it takes for an entry to be accepted, and what each error says about the entry it blames |
| TarValidation.SaturatingDecides | src/domain/tar_validation.rs:193-198 | the saturating total exceeds the cap if and only if the true sum does and the cap is not the largest representable number |
| TarValidation.SuccessBoundsUpload | src/domain/tar_validation.rs:157-198 | success means regular files and directories only, each of at most the entry cap, and a true sum within the total cap unless that cap is the largest representable number |
| TarValidation.SaturationIsTheOnlyGap | src/domain/tar_validation.rs:193-198 | at the largest cap a larger sum is let through |
| Config.Validate | src/config.rs:221-276 | accepts exactly the valid configurations and names the first violation of any other |
| Config.ProblemsTell | src/config.rs:221-276 | what each error says about the configuration and about the constraints checked before it |
| Config.ResolveClientWorkers | src/adapters/system_users.rs:103-124 | succeeds exactly if every account exists and gives each client the name, uid and gid of the account of its last entry; otherwise names the first account missing |
| Config.ValidMeansDistinctAccounts | src/config.rs:265-274 | in a valid configuration no two clients run as one account |
| Config.Load | src/config.rs:195-207 | startup yields settings exactly for valid configurations whose accounts exist, and then clients are kept apart |
| LogRotation.LogDir.Compress | src/adapters/tokio_filesystem.rs:45-54 | the files after a compression, wherever it stops |
| LogRotation.CompressedExactly | src/adapters/tokio_filesystem.rs:45-54 | what a compression leaves of original and archive, at each point it can stop, and that no other file is touched |
| LogRotation.IsGzExactly | src/service/log_rotation.rs:28-30 | an archive is a name that ends in ".gz" with something before it |
| LogRotation.VisitExactly | src/service/log_rotation.rs:77-118 | what a sweep does about one entry, for every kind of entry |
| LogRotation.LogDir.RunOnce | src/service/log_rotation.rs:62-119 | the files after a sweep over whatever is listed, and that no log is lost before its time |
| LogRotation.LogDir.RunTicks | src/service/log_rotation.rs:130-142 | the files after any number of ticks of the endless loop, no log being lost before its time |
| LogRotation.SweepKeeps | src/service/log_rotation.rs:77-118 | any part of a sweep keeps every log's content until its time |
| LogRotation.NothingLostBeforeItsTime | src/service/log_rotation.rs:45-48 | at every point of any history of logging, sweeps and interrupted sweeps, a log is there in full until compress-after plus retention past its last write |
| LogRotation.SweepCompresses | src/service/log_rotation.rs:112-117 | an old enough log, its name not ending in ".gz", whose compression completes is gone as a plain file at the end of the sweep, and its archive is there if archives are retained at all |
| LogRotation.SweepExpires | src/service/log_rotation.rs:105-111 | an old enough file whose name ends in ".gz" and whose removal is answered is gone at the end of the sweep |
| LogRotation.YoungFilesStay | src/service/log_rotation.rs:105-118 | a log too young to be compressed is as it was after any sweep |
| LogRotation.ArchiveStays | src/service/log_rotation.rs:105-111 | the archive of a log, its original gone, is as it was after any sweep before its retention has passed |
| LogRotation.LoggingExactly | src/service/log_rotation.rs:45-48 | what a write does to the file of that name and to no other |

## Left out

- HTTP parsing, authentication, error mapping, telemetry, command line: plumbing around the protocol.
- Secrets, tokens and container contents: generated passwords, JWTs, images, environment, SQL and gateway configuration do not influence the protocol.
- Client libraries (database, JSON, archive, container runtime, gzip): their calls are atomic actions with the documented contract; a JSON text is a value that parses or does not, and an `id` column that is not an id is not part of this model.
- SQLite's own failures inside a repository method: each method writes at most once, so they leave the table as it was; in the protocol and in the sweeps a failed call is a reply.
- Async detail: a cancellation lands between two external calls; handler futures dropped half way, and blocking jobs that outlive a cancelled spawn, are not modelled. A cancellation between looking the account up and persisting it is one that comes before both.
- The reaper in the protocol: one decision about one row taken on a possibly older clock reading, at any time while serving; `TtlReaper` has the sweep itself.
- The staging directory in the protocol: `ProjectUpload` covers calls that return; a spawn cancelled or a process that dies inside one skips the removal.
- The generated gateway configuration and SQL files: failing to write them is a reply, their content and removal are not tracked; nor is token signing, which comes before any resource is created.
- File modes after extraction and path safety of archive entries: they rest on the archive library; declining a path and failing to set a mode are replies.
- Changing the client-to-account map between restarts: directories of different clients stay apart only while it is fixed.
- Parsing a secret hash and a passwd line: a flag and a lookup.
- Error summaries of a failed spawn: any text, except where the code fixes it.
- Fractions of a second in a requested time to live: requests carry whole seconds; `RoundTrip` says what would be lost otherwise.
- Clashes of kind in an upload (a file where a directory is, or the reverse): the archive library or the copy fails, which is a reply; what an extraction that panics has written so far is not modelled.
- Failure to open an archive or read the log directory at all: nothing is written in either case.
- LifecycleSafety.NoOrphans: clusters of which a teardown call failed are excepted, because the code goes on past the failure and deletes the row.
- LifecycleSafety.CleanStart: speaks of the cluster's own directory and of containers, not of the staging directory.
- LifecycleOneTearer.AtMostOneTearer: counts tearers since the last start, because the startup pass tears down again what a crash interrupted.
- LogRotation.NothingLostBeforeItsTime: a name whose archive exists without the original is not logged to again, because compressing it a second time would overwrite the archive.
