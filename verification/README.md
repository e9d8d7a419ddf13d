# A verified model of the application framework's core

The framework lets a host application load plugins, run their migrations and
seeders in dependency order, and process background jobs from a queue. This
project models the four parts of it where order, failure and interleaving
matter, and proves what they promise over whole runs.

**Plugins** (`Walk.dfy`, `FirstPath.dfy`, `FirstCycle.dfy`, `Graph.dfy`, `Plugins.dfy`,
`Registration.dfy`). The colouring depth-first search is an
imperative class with its colour map, parent map, abort flag and post-order. Its
invariant says that the visiting vertices form one parent chain; the number of
vertices not yet discovered bounds the recursion. The search is proved sound and
complete: it reports a cycle exactly when one is reachable. Otherwise the relative
order of any two vertices is determined by their first paths, which are read off
the graph without searching it, and of several cycles the one closed by the first
path is reported. Setup turns this into a dependency-first
permutation of the plugins, and what the plugins register does not depend on it.

**Migrations and seeders** (`Namespaced.dfy`, `MigrationPlan.dfy`,
`MigrationOutcome.dfy`, `MigrationEngine.dfy`, `MigrationRecord.dfy`,
`MigrationSafety.dfy`, `Rollback.dfy`, `SeederRecord.dfy`, `Database.dfy`,
`AppState.dfy`, `App.dfy`, `Guarantees.dfy`, `Retry.dfy`, `History.dfy`,
`Scenario.dfy`). `App` is a class whose methods
change registries and a `Database` object. Every database operation may fail, by
a choice nobody sees, and is counted when it does; committing a script and
booking it are two operations, so the window between them is part of the model.
The database keeps a history of committed scripts as a ghost. The contract of
every run says precisely which prefix of which plan it carried out and, where the
call is one the application accepts, that it reports an error exactly when one
database operation (or seeder) failed; a call before setup and an unknown name are
errors without one. The safety theorems are lemmas about those plans, for every
prefix, and are restated on the database's history around the calls, entry by entry:
which script ran, in which order, and what is recorded afterwards.

**Queue and workers** (`Queue.dfy`, `Worker.dfy`, `Protocol.dfy`,
`ProtocolRecord.dfy`, `Consumer.dfy`, `RetryPolicy.dfy`). The queue contract is a set of functions on the driver's
state; `Queue` is a driver that may fail. `Protocol` is a transition system with
any number of producers and workers, lost commands, lease expiries and crashes.
When a lease expires, a driver either revokes the delivery at once or leaves it
current until the message is claimed again; an `Expire` step chooses, so every
result holds for both rules and for mixtures of them. The consumer loop, with
arbitrary steps of everybody else between its calls, is proved to be a run of
that system.

**Migration files** (`Text.dfy`, `MigrationFile.dfy`, `CutText.dfy`,
`MigrationText.dfy`, `Rendering.dfy`). The two scanners are loops proved equal to
functions, and the functions are characterised on every input: no text is lost, a
section is cut after every `;` that no block protects, and parsing inverts
rendering exactly for the migrations it can.

`Seqs.dfy` and `Lex.dfy` hold the vocabulary: filters, distinctness, and Go's
string order with sorting.

## Where the code differs from its comments

* `internal/structure/graph.go:85-87` says that vertices with no path between
  them keep their `AddVertex` order. They do if and only if the later one has the
  lexicographically smaller first path; if different added vertices lead to the
  two first, they come out in the opposite order of those. `FirstPaths` proves
  this and gives a graph for either outcome.
* `app/migration.go:398-423` computes its target as if the list were oldest
  first, but `app/migration.go:557` sorts newest first. For `0 < steps < n` it
  reverts the `steps` newest of `n` applied migrations exactly when the entry at
  index `steps` is registered and those were applied in name order and are
  precisely the registered ones with a greater name than that entry; never when
  `n <= 2 * steps`; and with `n` registered ones applied in name order only for
  `n = 2 * steps + 1`. (An entry with an empty name there makes it revert everything
  instead.) The comment at `app/migration.go:385-388` promises it for every history.
  Even the intended
  reading is right for all numbers of steps only in name-ordered histories.
* `app/migration.go:337` calls `MigrateAllDown` the exact reverse of
  `MigrateAllUp`. That holds if and only if at most one namespace belongs to no
  plugin, which the application's invariant guarantees.
* `app/plugin.go:151-157` looks only at the first descriptor a plugin gives for a
  dependency, so a second, stricter one is not enforced
  (`Plugins.SecondDescriptorIsNotEnforced`); where none is repeated, all are.
* `migration/parser.go:33-34` says that everything between StatementBegin and
  StatementEnd is kept as a single statement. StatementBegin does not end a
  statement, so the block is one of its own if and only if the text since the
  last cut is blank; otherwise that text becomes its beginning.
* `app/migration.go:434-437` calls the reported current version the most recently
  applied migration. The code reports the greatest applied name; the two agree if
  and only if no migration with a greater name was applied before the last one.
* `job/retry_policy.go:21-22` lists delays from one second on, capped at five
  minutes. A delivery's attempt starts at 1 and the fifth failure is final, so a
  job with the default policy waits exactly 2, 4, 8 and 16 seconds.

## What may surprise a caller

* A setup (`app/app.go:79-122`) can stop after some plugins have registered, and
  what they registered stays. It can be repeated successfully exactly if every
  plugin's second registration would have been accepted to begin with and repeats
  none of the migrations left over.
* A section's lines are scanned twice (`migration/parser.go:109`,
  `migration/parser.go:161`), so up to two carriage returns at the end of a line
  are dropped.
* A migration whose bookkeeping write failed commits a second time when the run is
  repeated; all others commit once.

## Model

| member | source | states |
|---|---|---|
| Graphs.Graph.AddVertex | internal/structure/graph.go:14-22 | a vertex is added once, at the end of the order; the order keeps listing exactly the vertices, without repetition |
| Graphs.Graph.AddEdge | internal/structure/graph.go:36-41 | the edge set grows by that edge and no edge is doubled; order and vertices stay in agreement exactly when the source vertex was added before |
| Graphs.Graph.GetTopologicalOrCycle | internal/structure/graph.go:88-162 | a cycle is returned if and only if one is reachable from the added vertices; it is a closed walk without repetition, and the one the lexicographically first closing path of choices closes; otherwise the result is every reachable vertex once, sources before targets, any two vertices standing in the order their first paths determine; without edges it is the reversed order of addition |
| Graphs.Graph.GetReverseTopologicalOrCycle | internal/structure/graph.go:181-192 | the same order reversed, targets before sources, or the same cycle |
| Graphs.Graph.Explore | internal/structure/graph.go:126-132 | the outer loop discovers every added vertex unless a cycle stops it |
| Graphs.Search.Dfs | internal/structure/graph.go:97-124 | keeps the grey vertices one parent chain and the finished ones closed under edges; returns with the vertex finished, or with an edge back into the chain |
| Graphs.CyclePath | internal/structure/graph.go:134-153 | the walk along parents always arrives at the start of the cycle; the path starts and ends with it, follows edges and repeats no other vertex |
| Walks.WalkDescends | internal/structure/graph.go:181-192 | in a dependency-first order every walk goes strictly backwards, so transitive dependencies come earlier |
| Walks.TargetsFirstIsAcyclic | internal/structure/graph.go:88-162 | a complete dependency-first order excludes every cycle, of any length |
| FirstPaths.OrderOfUnrelated | internal/structure/graph.go:80-87 | in the result, one of two vertices with no path between them precedes the other if and only if its first path is the lexicographically greater one |
| FirstPaths.LaterStartComesFirst | internal/structure/graph.go:80-87 | when different added vertices are the first to reach the two, they come out in the opposite order of those |
| FirstPaths.KeepsOrderExactlyWhen | internal/structure/graph.go:85-87 | all unrelated vertices keep the order they were added in if and only if of any two the later one has the smaller first path |
| FirstPaths.FirstPathIsUnique | internal/structure/graph.go:126-132 | the first path to a vertex is unique |
| FirstCycles.ArrangedIsUnique | internal/structure/graph.go:80-87 | without a reachable cycle only one list of the reachable vertices is arranged by first paths, so the result is determined by the calls that built the graph |
| FirstCycles.NoneClosesEarlier | internal/structure/graph.go:97-124 | a path that closes a cycle while everything to its left is finished is the first that does, because no finished vertex leads to a cycle |
| FirstCycles.FirstCycleIsUnique | internal/structure/graph.go:80-87 | the cycle that is reported is determined as well |
| FirstPaths.OrderIsNotKept | internal/structure/graph.go:85-87 | an edge A to B and C isolated: A and C change places |
| FirstPaths.OrderIsKept | internal/structure/graph.go:85-87 | edges A to C and A to B in this order: B and C keep theirs |
| FirstPaths.Discovered | internal/structure/graph.go:97-124 | when the search discovers a vertex, the choices on its stack are that vertex's first path, and everything finished was met before it |
| Seqs.ReverseSlice | internal/structure/graph.go:156-159 | the two-index swap loop is reversal |
| Plugins.NoProblemsMeansMet | app/plugin.go:91-143 | no problem is reported if and only if, for every plugin, the first descriptor of every dependency names a registered plugin of a compatible version (or asks for any version) |
| Plugins.NoProblemsWithoutRepeats | app/plugin.go:91-157 | if no plugin repeats a dependency, no problem is reported if and only if every descriptor is met |
| Plugins.SecondDescriptorIsNotEnforced | app/plugin.go:145-157 | a second descriptor for the same plugin may be unmet without any problem being reported |
| Plugins.DependenciesOfPermutation | app/plugin.go:46-73 | the dependency graph does not depend on the order of the plugins |
| Plugins.EdgeListInOrder | app/plugin.go:49-54 | a plugin's edges are its dependencies without repetition, in the order of their first mention |
| Plugins.ProblemKinds | app/plugin.go:99-137 | which of the four problems is reported: a missing plugin, an invalid requirement, an invalid version, or an incompatible one |
| Apps.CheckPluginDependencies | app/plugin.go:91-143 | collects exactly the problems that exist, each once, whatever order the vertices are met in |
| Apps.SortPluginsByIdOrder | app/plugin.go:176-190 | the result is the plugins the given ids name, in the order of the ids; unknown ids are skipped, and with unique names no named plugin is lost |
| Apps.App.UsePlugin | app/plugin.go:13-42 | all or nothing: accepted exactly before setup and when every name stays unique, non-empty and other than "owner" and every version is empty or valid; an error names a plugin that is at fault |
| Apps.App.InitPlugins | app/plugin.go:46-73 | succeeds if and only if there is neither a problem nor a reachable cycle; then the plugins are permuted so that each follows its dependencies, in the one order first paths determine; on an error nothing changes and the error lists all problems or shows a real cycle |
| Apps.App.Setup | app/app.go:69-126 | succeeds exactly when there is no dependency problem, no reachable cycle, and every plugin's registration would be accepted on its own; then plugins are dependency-first and the registries are, as maps, the old ones and all contributions; otherwise the plugins and registries are as before or hold what was registered up to the refusal; a second call after success changes nothing |
| Apps.App.RegisterPlugins | app/app.go:79-122 | the plugins' registrations go into the registries one after the other; the first refused one stops it, leaving the earlier ones and, if only its jobs were at fault, its migrations and seeders |
| Registrations.RegistrationIgnoresOrder | app/app.go:79-122 | all registrations are accepted if and only if each would be on its own, in any order of the plugins; the migrations are then the disjoint union of the old ones and every plugin's, and for seeders and jobs every plugin's entries replace old ones of the same key |
| Registrations.WhatIsLeft | app/app.go:79-122 | after a setup that stopped, the registered migrations are the old ones, those of the plugins before the refused one, and those of the refused one if only its jobs were at fault |
| Registrations.RepeatedSetup | app/app.go:69-126 | a second setup, with whatever the plugins register then, succeeds if and only if every registration would have been accepted to begin with and repeats no migration left over |
| Registrations.RepeatedMigrationIsRefused | app/app.go:69-126 | one repeated migration refuses it |
| Registrations.SetupWithoutMigrationsSucceeds | app/app.go:69-126 | registrations without migrations are not held back |
| Apps.App.RegisterMigrations | app/migration.go:62-80 | all or nothing: succeeds exactly when the batch repeats no name and meets no registered one |
| Apps.App.RegisterSeeders | app/seeder.go:34-51 | registered seeders are replaced in place, new ones appended |
| Apps.App.RegisterJobs | app/queue.go:37-63 | the same for jobs, after the whole batch was checked for nil jobs and empty names |
| Namespaces.UpsertIsMapUpdate | app/seeder.go:34-51 | replace-in-place-or-append is the update of a map with unique keys |
| Namespaces.UpsertKeepsPlaces | app/queue.go:50-60 | a replaced item keeps its place, and a new one comes last |
| Namespaces.UpsertAllIsLastWriterWins | app/queue.go:37-63 | a whole batch is a last-writer-wins map union |
| Namespaces.AppendIsInsert | app/migration.go:62-80 | appending an accepted batch is a disjoint union of maps |
| Namespaces.ListingIsSorted | namespaced/namespaced.go:34-45 | a namespace's listing is its entries in strictly ascending name order |
| Namespaces.ListingDependsOnMap | namespaced/namespaced.go:34-45 | two registries with the same contents list alike, whatever the order of registration |
| Namespaces.NamespaceListIsSorted | namespaced/namespaced.go:73-84 | the namespaces are exactly those of the entries, once each and ascending |
| Namespaces.GetNamespace | namespaced/namespaced.go:34-45 | the loop and the sort compute that listing |
| Namespaces.GetNamespaces | namespaced/namespaced.go:73-84 | the loop over a seen-set and the sort compute that list |
| Namespaces.Get | namespaced/namespaced.go:95-103 | lookup in the map the entries stand for |
| Lex.SortOfDistinct | namespaced/namespaced.go:34-45 | sorting entries with distinct names orders them strictly and keeps exactly the same entries |
| Lex.LessIsDictionaryOrder | namespaced/namespaced.go:34-45 | names compare as in a dictionary: by the first difference, and a proper prefix first |
| MigrationEngine.MigrateOne | app/migration.go:176-198 | one migration is skipped, or committed and booked, or committed and left unbooked; it fails exactly when one database operation does |
| MigrationEngine.UpTo | app/migration.go:164-200 | carries out a prefix of the unapplied migrations up to the target in name order, all of them when it reports success; an unknown target changes nothing |
| MigrationEngine.DownTo | app/migration.go:214-261 | carries out a prefix of the applied migrations above the target in reverse name order |
| MigrationEngine.IndexOfMigration | app/migration.go:265-272 | the first position of that name |
| Apps.App.RunMigrationsUpTo | app/migration.go:164-200 | the same for the registered migrations of a namespace |
| MigrationRecord.UpToMeaning | app/migration.go:170-175 | an unknown target is refused; otherwise exactly the registered migrations of the namespace with a name not above the target are looked at, in name order |
| Apps.App.RunMigrationsDownTo | app/migration.go:214-261 | the same for the registered migrations of a namespace |
| Rollbacks.DownToMeaning | app/migration.go:222-238 | an unknown target is refused; otherwise exactly the recorded registered migrations above the target are reverted, greatest name first, and all of them for the empty target |
| Apps.App.MigrateAllUp | app/migration.go:292-332 | carries out a prefix of one plan: plugins in dependency order, then the other namespaces ascending, within each the unrecorded migrations by name; the whole plan exactly when no database operation failed |
| Apps.App.MigrateAllDown | app/migration.go:350-383 | the same for the other namespaces first and then the plugins backwards, within each the recorded migrations by descending name |
| Retries.RetryCompletesThePlan | app/migration.go:292-332 | a failed MigrateAllUp and a successful one after it record the whole plan of the first; every migration of it commits exactly once if and only if no bookkeeping write failed, and after one did, only that migration commits twice |
| Retries.CommitsMeaning | app/migration.go:192-194 | commits are counted per history entry |
| Scenarios.RetryMigrateUp | app/migration.go:292-332 | the same of the database around the two calls |
| MigrationOutcome.Compose | app/migration.go:292-332 | finished and cut-short runs of consecutive keys compose to a run of the concatenated plan |
| MigrationPlan.PlanMeaning | app/migration.go:292-332 | a plan holds each unrecorded (or recorded) registered migration of its namespaces exactly once |
| MigrationPlan.EarlierNamespacesAreDone | app/migration.go:292-332 | at any point of any plan, everything in namespaces visited earlier is already in its final state |
| MigrationSafety.UpRespectsDependencies | app/migration.go:292-332 | at every commit of a plugin's migration, in runs cut short at any point and from any table, every registered migration of every transitive dependency is recorded |
| MigrationSafety.DownRespectsDependents | app/migration.go:350-383 | at every revert, no registered migration of any transitive dependent is still recorded |
| Scenarios.MigrateUp | app/migration.go:292-332 | around a MigrateAllUp call in any state after setup: every new entry of the database's history ran the Up script of a registered, unrecorded migration, in visiting order and leaving none out; all of them are recorded, but perhaps the last; at each of them every registered migration of every transitive dependency is recorded; success means that everything registered is recorded, and an error that exactly one operation failed |
| Scenarios.MigrateDown | app/migration.go:350-383 | dually around a MigrateAllDown call, with Down scripts of recorded migrations in teardown order, and no registered migration of any transitive dependent recorded at any of them |
| Histories.UpOutcomeIsHistory | app/migration.go:188-197 | every outcome of a full migration is such a history: the statements are those of the registered Up script |
| Histories.DownOutcomeIsHistory | app/migration.go:249-258 | every outcome of a teardown is such a history with the registered Down scripts |
| Histories.UpOrderMeaning | app/migration.go:292-320 | plugins are visited in their order and before all other namespaces, those ascending |
| Histories.DownOrderMeaning | app/migration.go:355-381 | the other namespaces are torn down first, ascending, and then the plugins backwards |
| MigrationSafety.TeardownMirrorsMigration | app/migration.go:334-383 | a full teardown reverts what a full migration applied in exactly the opposite order if and only if at most one namespace belongs to no plugin |
| MigrationSafety.RevertingInReverseRestores | app/migration.go:350-383 | reverting in the opposite order restores the schema when every Down inverts its own Up |
| MigrationSafety.ExecInOrder | app/migration.go:145-152 | statements are executed one after the other, each on what the one before left |
| MigrationSafety.MigrateUpThenDownRestoresSchema | app/migration.go:334-383 | full migration followed by full teardown is the identity on schemas |
| Guarantees.OnlyTheHostIsOutside | app/app.go:79-122 | in every reachable state no namespace but the host's lies outside the plugins |
| Guarantees.TeardownUndoesMigration | app/migration.go:334-383 | hence for every reachable application: from an empty table, successful MigrateAllUp and MigrateAllDown leave nothing recorded, opposite histories and the old schema |
| Scenarios.MigrateUpThenDown | app/migration.go:334-383 | around the two calls from an empty table: nothing recorded, opposite histories, and the schema restored if every Down inverts its Up |
| MigrationRecord.DriftBoundedByFailures | app/migration.go:192-197 | over any history the table and the set of live migrations differ by at most one migration per failed bookkeeping write |
| MigrationPlan.LiveMeaning | app/migration.go:188-194 | a migration is live if and only if its last script to commit was its Up |
| MigrationPlan.ReplayMeaning | app/migration.go:122-143 | a migration is recorded if and only if its last script to be booked was its Up |
| MigrationPlan.FailuresMeaning | app/migration.go:195-197 | the failures of a history are its entries that were not booked |
| MigrationRecord.RecordIsExact | app/migration.go:253-258 | without such failures they are equal |
| MigrationRecord.RunIsLegal | app/migration.go:176-198 | no run applies a recorded migration or reverts an unrecorded one, at any prefix |
| Apps.App.RollbackSteps | app/migration.go:398-423 | carries out a prefix of the plan its index arithmetic selects from the newest-first list; non-positive steps do nothing |
| MigrationRecord.AppliedEntriesGrow | app/migration.go:551-580 | the applied migrations are listed by application time, the one booked last first, of one namespace or of all |
| MigrationRecord.RollbackAsWritten | app/migration.go:398-423 | with migrations applied in name order and 0 < steps < n, all but the oldest steps + 1 are reverted, which are the steps newest if and only if n = 2 * steps + 1 |
| Rollbacks.RollbackIsRightExactlyWhen | app/migration.go:385-423 | in any history, registered or not, with 0 < steps < n: the steps newest are reverted, newest first, if and only if the entry at index steps is registered or has the empty name, they were applied in name order, and they are exactly the registered ones with a greater name than that entry (all registered ones for the empty name) |
| Rollbacks.RollbackOfHalfIsNeverRight | app/migration.go:385-423 | with n at most 2 * steps and a name at index steps it is never right, whatever was applied in whatever order |
| Rollbacks.OneOfTwoIsNotReverted | app/migration.go:398-423 | two migrations applied in name order and one step: nothing is reverted |
| MigrationRecord.RollbackAsIntended | app/migration.go:385-397 | read oldest first, the same arithmetic reverts exactly the steps newest |
| MigrationRecord.RollbackEverything | app/migration.go:390-392 | with at least n steps, every registered applied migration is reverted, newest name first |
| Rollbacks.RollbackInAnyHistory | app/migration.go:398-423 | for any order of application: the entry at index steps decides; if it is not registered the call fails, otherwise exactly the recorded registered migrations with a greater name are reverted |
| Rollbacks.IntendedRollbackNeedsNameOrder | app/migration.go:385-423 | the intended reading is right for every number of steps if and only if migrations were applied in name order |
| Apps.App.NamespaceMigrationState | app/migration.go:507-545 | reports every registered migration with its status, the number not applied, and the applied name that is last in name order |
| MigrationRecord.CurrentIsNewestExactlyWhen | app/migration.go:430-441 | the reported current migration is the one applied last if and only if none with a greater name was applied before |
| MigrationRecord.CurrentIsGreatest | app/migration.go:507-545 | the current migration is the greatest applied name, pending counts exactly the unapplied ones |
| Apps.App.OrderedMigrationNamespaces | app/migration.go:586-613 | the namespaces with migrations, once each, in the order MigrateAllUp visits them |
| Apps.App.MigrationState | app/migration.go:459-480 | one such report per namespace in that order |
| MigrationRecord.SeenIsRecorded | app/migration.go:551-580 | what the report sees as applied in a namespace is what the engine has recorded there |
| MigrationRecord.NothingPendingAfterUp | app/migration.go:507-545 | after a complete MigrateAllUp plan every registered migration of every namespace is recorded |
| MigrationRecord.NothingCurrentAfterDown | app/migration.go:507-545 | after a complete MigrateAllDown plan none is |
| Scenarios.MigrateUpAndReport | app/migration.go:459-545 | after MigrateAllUp succeeds, MigrationState reports 0 pending for every namespace |
| Scenarios.MigrateDownAndReport | app/migration.go:459-545 | after MigrateAllDown succeeds, it reports no current migration for any namespace |
| Apps.App.RunSeeder | app/seeder.go:124-164 | unforced, a recorded seeder is skipped; otherwise it runs and is recorded, and a failure leaves precisely the described trace |
| Apps.App.RunSeedersForNamespace | app/seeder.go:173-180 | the namespace's seeders by name, cut short only by a failure |
| Apps.App.SeedAll | app/seeder.go:197-221 | the same over all namespaces in MigrateAllUp's order |
| SeederRecord.RunExplained | app/seeder.go:124-164 | every run keeps the bookkeeping invariant, whatever becomes of its record |
| SeederRecord.UnforcedRunsAtMostOnce | app/seeder.go:110-164 | with working bookkeeping and no forcing no seeder succeeds twice, and a seeder is recorded exactly when it has run |
| SeederRecord.UnforcedSeedingIsIdempotent | app/seeder.go:197-221 | after a finished unforced run the same plan is empty |
| Scenarios.SeedTwice | app/seeder.go:197-221 | once SeedAll without force has succeeded, calling it again runs nothing and changes nothing |
| Guarantees.SeedingRespectsDependencies | app/seeder.go:197-221 | a plugin's seeder runs only when all registered seeders of its transitive dependencies are recorded, or have run in a forced call |
| Scenarios.Seed | app/seeder.go:197-221 | around a SeedAll call: every new run was of a registered seeder, unless forced of an unrecorded one, in visiting order and recorded, but perhaps the last; the table gained exactly what was recorded; success means that everything registered is recorded, and has run if forced; and at each run every registered seeder of each transitive dependency is recorded or, under force, has run in this call |
| RetryPolicies.BackoffExactness | job/retry_policy.go:35-41 | with 64-bit wraparound the delay equals min(2^attempt s, cap) for every attempt if and only if the cap is at most 5 * 2^59 ns |
| RetryPolicies.FitsExactlyBefore34 | job/retry_policy.go:35-41 | the product first overflows at attempt 34 |
| RetryPolicies.ProductResidue | job/retry_policy.go:35-41 | from there on it is, modulo 2^64, a known multiple of 2^43 |
| RetryPolicies.BackoffNeverShrinks | job/retry_policy.go:35-41 | a later attempt never waits less, and never more than the cap |
| RetryPolicies.DefaultPolicyDelays | job/retry_policy.go:21-41 | the default delay at a given attempt number: 2^attempt seconds up to attempt 8, five minutes from attempt 9 on |
| RetryPolicies.NegativeAttempt | job/retry_policy.go:35-41 | for a negative attempt the delay is the cap |
| Workers.DefaultJobWaits | app/queue.go:201-223 | a failing job without its own policy is retried after 2, 4, 8 and 16 seconds at attempts 1 to 4 and dead-lettered at its fifth |
| Queues.Queue.Push | queue/queue.go:209-232 | a new message becomes pending under an unused id; a retained id is refused and nothing changes; an infrastructure error leaves it open whether the message was enqueued |
| Queues.Queue.Pop | queue/queue.go:234-265 | delivers a visible message of that queue with its attempt counted, its delay reset and a token never used before |
| Queues.Queue.Settle | queue/queue.go:120-138 | changes the message exactly as commanded if the token is current; a stale token changes nothing and is reported; an infrastructure error leaves it open whether it applied |
| Queues.Queue.Ack | queue/queue.go:266-277 | the message in flight under that token is done, and nothing else changes; any other token is refused |
| Queues.Queue.Retry | queue/queue.go:279-296 | it is pending again with the delivery's delay, payload and extra |
| Queues.Queue.DeadLetter | queue/queue.go:298-331 | it has failed, with the delivery's payload and extra |
| Queues.ExpiredMeaning | queue/queue.go:113-118 | once its lease has run out a message can be delivered again, and its old token counts exactly if the driver does not revoke it |
| Workers.ProcessMessage | app/queue.go:167-227 | sends exactly one command for the delivery: dead-letter with the reason and the old extra when the job is unknown; acknowledge when the handler succeeded; dead-letter with its error and the old extra when the attempt has reached MaxAttempts of the job's own policy, or else 5; otherwise retry after that policy's delay |
| Workers.Dispatch | app/queue.go:73-96 | an unregistered job is refused without touching the queue, a registered one is pushed, once, to its job's queue with the dispatch's visibility timeout or else the job's |
| Protocol.ReachableInv | queue/queue.go:100-138 | every reachable state keeps ids unique, every message in exactly one state with balanced books, and tokens pairwise different |
| Protocol.MessagesAreKept | queue/queue.go:140-146 | no step ever loses a pushed message or changes its job |
| Protocol.TerminalIsForever | queue/queue.go:100-111 | a done or failed message never changes again, so it is never delivered again |
| Protocol.OneCurrentHolder | queue/queue.go:120-138 | at most one worker holds the current delivery of a message |
| Protocol.ReachableBounds | app/queue.go:201-226 | each message is settled at most once, retried at most MaxAttempts - 1 times and delivered at most MaxAttempts times plus once per lost lease; a job dispatched here is never buried as unregistered |
| ProtocolRecords.FinishRecords | app/queue.go:167-227 | what a timely settlement makes of the message, and how the history counts it |
| ProtocolRecords.ExpiriesMeaning | queue/queue.go:113-118 | expiries are counted per expiry step of the message |
| Protocol.LostLeasesAreExpiries | queue/queue.go:113-118 | leases are lost only through expiry steps |
| Protocol.DeliveriesFromTheStart | app/queue.go:201-226 | in every run from the start a message is settled at most once and delivered at most MaxAttempts times plus once per expiry |
| ProtocolRecords.BoundsFromTheStart | app/queue.go:201-226 | the same in plain terms for MaxAttempts at least one: fewer than MaxAttempts retries, and deliveries at most MaxAttempts plus the number of expiry steps of the message |
| Protocol.GracefulDecreases | app/queue.go:117-151 | every delivery and every applied settlement lowers one measure |
| Protocol.GracefulRunsAreBounded | app/queue.go:117-151 | without expiries, crashes, lost commands and new messages no run is longer than that measure |
| Protocol.GracefulRunsSettleEverything | app/queue.go:117-151 | and when such a run can go no further every message is done or failed |
| Consumers.ConsumeQueue | app/queue.go:117-151 | whatever everybody else does between its calls, the loop is a run of the protocol: every turn asks the named queue once and no other, a message it gets is settled before the next turn as its handler's outcome demands, and the loop stops early only after a failed Pop |
| Consumers.FinishIsAStep | app/queue.go:167-227 | the command chosen by the worker is the settlement step the protocol allows |
| Guarantees.DispatchedJobsStayRegistered | app/queue.go:37-63 | later registrations never unregister a job, and a registered job is given up only after a failure on its last attempt |
| MigrationFiles.MarkerTexts | migration/parser.go:91-92 | the four marker texts, in any case and with any spaces around, are markers and nothing else is |
| Texts.SpaceCharacters | migration/parser.go:110 | exactly the six ASCII space characters are trimmed |
| Texts.DropCRMeaning | migration/parser.go:108-109 | a scanned line loses one carriage return at its end |
| MigrationFiles.SplitStatements | migration/parser.go:142-192 | the scanner with buffer and block flag computes Statements |
| MigrationFiles.CollectSections | migration/parser.go:89-124 | the section scanner yields, for each marker, the statements of the lines after its last occurrence up to the next section marker |
| MigrationFiles.ParseRawMigration | migration/parser.go:77-87 | both lists, or the first missing section |
| MigrationFiles.SectionLinesAppend | migration/parser.go:98-124 | one more line extends the open section, starts it anew, or leaves it alone |
| Renderings.LastSectionCounts | migration/parser.go:98-124 | the section that counts is what follows the last marker of its kind, up to the next section marker |
| Renderings.SmallFile | migration/parser.go:77-135 | a small file as it is written, with its two lists |
| MigrationTexts.SplittingConservesText | migration/parser.go:142-192 | for every section, blocks balanced or not: the statements' text without white space is the non-marker lines' text without white space, in order; every statement is trimmed and non-empty |
| MigrationTexts.ParsingConservesText | migration/parser.go:77-135 | the same for the last up and the last down section of a whole file |
| MigrationTexts.ParsingFailsOnBlankSections | migration/parser.go:125-134 | parsing fails if and only if the last up section, or else the last down section, is missing or blank |
| CutTexts.SplittingIsCuttingWithBlocks | migration/parser.go:142-192 | every section, blocks balanced or not: the scan equals cutting its text after every ';' outside protected text and at every StatementEnd, where protected text continues the piece it follows |
| CutTexts.BlockStandsAlone | migration/parser.go:25-34 | a block's text joins whatever precedes it since the last cut; it is a statement of its own if and only if that is blank |
| CutTexts.EndSplitsSection | migration/parser.go:167-170 | a StatementEnd ends the statement before it, inside a block or not, and what follows is cut as if it stood alone |
| CutTexts.UnfinishedBlock | migration/parser.go:190-191 | a block that never ends is closed by the end of the section |
| Renderings.BlockSwallowsUnfinishedText | migration/parser.go:33-34 | a concrete section where it is not |
| CutTexts.SplittingIsCutting | migration/parser.go:152-191 | without block markers the line-by-line scan equals cutting the whole text after every ';', trimming and dropping empties |
| CutTexts.SplittingIsCuttingTheSection | migration/parser.go:152-191 | without carriage returns that is a cut of the section as it stands |
| CutTexts.SplittingHasCutShape | migration/parser.go:152-191 | a statement has at most one ';', as its last character, and all but the last statement end in one |
| Renderings.RoundTrip | migration/parser.go:77-192 | rendering a migration with one block per statement and parsing it gives it back if and only if both lists are non-empty and every statement is trimmed, non-empty, and has no line that is a marker or ends in a carriage return |

## Left out

- SQL text, placeholders, drivers, timestamps and `database/sql`: scripts are lists of statements, the schema is any type with an interpretation of statements, application times are the order of booking. A failed commit has no effect.
- Schedules (`scheduler/scheduler.go`, `app/schedule.go`) and the command registry: what they do rests on libraries outside the repository.
- Apps.App.Setup: the plugins' own `Register` methods are a function parameter; commands they return, and the error registering one can give, are not modelled.
- Queues.Queue.Push: one message at a time; batches, `ExtendVisibility`, `Redrive` and `Stats` would mostly repeat these transitions.
- Queues.Queue.Pop: delays and polling are absent, so a delayed message may be delivered at once.
- Queues.Queue.Settle: settled messages stay as tombstones, so their ids are not reused as a driver may allow.
- Time: lease lengths are absent; a lease expires whenever an `Expire` step says so.
- Apps.App.NamespaceMigrationState: the application time of each migration is absent, because times are represented only by the order of booking.
- Apps.App.MigrationState: the same.
- Workers.ProcessMessage: what a handler returns is a parameter; jobs it dispatches are steps of others, and the payload it may edit is left as delivered (the protocol's settlement step allows any payload).
- Consumers.ConsumeQueue: the endless loop runs for a given number of turns, and what everybody else does is a parameter of each turn.
- Protocol.ReachableBounds: a job's MaxAttempts is fixed for a run; replacing the job in between could change the bound.
- Plugins.NoProblemsMeansMet: validity, major version and comparison of versions are parameters, so the ordering of Semantic Versioning 2.0.0, section 11, is not used.
- MigrationFiles.ParseRawMigration: texts are ASCII, and the line-length limit of `bufio.Scanner` with the error it raises is absent.
- Namespaces.ListingIsSorted: strings compare by character, which is Go's byte order for ASCII names.
- `GroupByNamespace`, `Sort`, `Contains` and the multi-namespace getter of `namespaced/namespaced.go`, the seeder status report, and reading migrations from an embedded file system: they would repeat listings and reports proved here.
- Configuration, cache, logging, service container, `Boot` and error texts.
