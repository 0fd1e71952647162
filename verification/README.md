# Verified models of the compute control code

This project models the parts of the repository that decide what a compute node is allowed to do
next, and proves that they decide correctly. Everything is stated over all inputs, all schedules or all
histories; there are no bounds.

- **Compute status protocol** (`ComputeStatus.dfy`, `ComputeNode.dfy`). One mutex and one condition
  variable are shared by the main thread, the configurator, the certificate watcher and the HTTP
  handlers. The transition system has their program counters and the condition variable's wait set;
  the class holds the same fields and updates them in place, one method per locked stretch of code.
- **Spec reconciler** (`PgCatalog.dfy`, `SpecApply.dfy`, `PerDatabase.dfy`, `DatabaseOwners.dfy`,
  `ApplyStages.dfy`, `ApplyRows.dfy`, `ApplyResults.dfy`, `DeletedOwners.dfy`, `ApplySpec.dfy`,
  `DropSubscriptions.dfy`). Postgres is an abstract catalog with a partial step per command. The phases rewrite
  their snapshot of the catalog while they emit commands; the per-database tasks interleave freely. An apply that
  nobody interferes with is a function of the catalog, the schedule of its tasks and the phase it is cut off
  after; the methods are proved against that function.
- **Overlapping applies** (`Flights.dfy`, `FlightsAlone.dfy`, `SubscriptionHistory.dfy`,
  `OverlappingApplies.dfy`). Any number of applies in flight move one command, one task step or one phase at a
  time, between each other and between users at work; failed ones leave tasks behind. The record of the
  subscription drop is followed over every such history, and left alone an apply in flight does what the
  function says.
- **Safekeeper fast path** (`SafekeeperSync.dfy`). The uniqueness check on the connection strings, the
  quorum loop and the comparison of positions, and why skipping the full sync loses nothing.
- **Quoting and printing** (`PgText.dfy`, `DollarQuote.dfy`, `PostgresConf.dfy`). Each printer is
  paired with a reader that follows PostgreSQL's lexical rules (sections 4.1.1 and 4.1.2 of the PostgreSQL
  documentation, and the rules of its configuration file).
- **Path canonicaliser** (`PathClean.dfy`). A path denotes a walk through directories; cleaning it is
  proved to compute the canonical form of that walk.
- **Crash-safe and single-flight protocols** (`Migration.dfy`, `AuditTail.dfy`, `LsnLease.dfy`,
  `SingleFlight.dfy`).
- **Benchmark keys** (`Murmur.dfy`). The mixing function behind the random unique keys is a bijection.

Inputs the source gets from outside (answers of servers, what a file holds when it is polled, faults,
schedules, clocks) are parameters. 32-bit words are naturals below 2^32 with the wrap-around written out;
retry delays are reals.

## Where code and documentation disagree

The model follows the code.

- The state diagram of the compute lacks three arrows: the main thread enters `Init` from
  `ConfigurationPending` and from both `TerminationPending` states (`DiagramHolds`,
  `UndocumentedArrowsAreTaken`). An accepted termination is final exactly when the main thread does not
  already hold a spec (`TerminationIsFinalExactlyWhen`); one accepted before any spec has arrived is never
  completed (`TerminationBeforeSpecNeverCompletes`).
- Outside lakebase mode the configurator can sleep through a refresh request
  (`RefreshLostOutsideLakebase`, `RefreshIsDeliveredExactlyWhen`).
- A promotion applies its spec without looking at the status, so it can overlap with the configurator
  (`OverlapIsReached`, `OverlapExactlyWhen`).
- The lease comment promises a sleep of no more than half the validity; the code takes the larger of the
  two durations, so the promise holds exactly up to two minutes (`SleepIsAtMostHalfExactlyWhen`).
- `/promote`, `/lfc/prewarm`, `/lfc/offload` and the extension download unwrap the spec under the lock, whatever
  the status. Before a spec has arrived they panic and poison the mutex (`PanicsExactlyWhen`, `PanicIsReached`).
- A comment promises that only inherited subscriptions are dropped, once per branch. A subscription is safe
  exactly when the drop is recorded for the timeline and no apply in flight that read the record as absent still
  has the drop for its database ahead of it (`SubscriptionStaysExactlyWhen`); with overlapping applies a new
  subscription can be dropped after the record was written (`OverlapDropsNewSubscription`).
- REASSIGN OWNED also gives away the databases of a deleted role, to whichever task sends it first. The order
  of the tasks decides who gets them exactly when a deleted role owns a database and some accessible listed
  database belongs to somebody but the administrator (`RaceExactlyWhen`). When a deleted role is listed for a
  database while another deleted role owns one, the order can even decide whether the apply succeeds
  (`SuccessIsARace`); otherwise it never does (`AppliesExactlyWhen`).
- A role that bears the quoted name of a listed owner passes for that owner (`CreateAlterAgreesExactlyWhen`).
  If the owner does not exist, the tasks reassign to nobody and, since the commands of a batch are
  pipelined, still drop what the deleted roles owned (`ObjectsLostToQuotedName`,
  `CleanOneRoleKeepsObjectsExactlyWhen`).

## Model

| member | source | states |
|---|---|---|
| `ComputeStatus.ReachableInv` | compute_tools/src/configurator.rs:13-195 | every reachable state of the four threads satisfies the ownership, spec-present and wait-set invariants |
| `ComputeStatus.AssertionsNeverFail` | compute_tools/src/configurator.rs:13-195 | in every interleaving both run-time assertions of the configurator hold, and no step of the main thread, the configurator or the certificate watcher panics |
| `ComputeStatus.PanicsExactlyWhen` | compute_tools/src/compute_promote.rs:41-57 | a step panics, poisoning the mutex, if and only if a promotion, prewarm, offload or extension request looks into the spec before one has arrived |
| `ComputeStatus.PanicIsReached` | compute_tools/src/compute_prewarm.rs:93-97 | counterexample: each of those requests does so on a compute that has just started without a spec |
| `ComputeStatus.OnlyConfiguratorLeavesConfiguration` | compute_tools/src/configurator.rs:118-127 | only a configurator step moves the status out of Configuration or RefreshConfiguration |
| `ComputeStatus.OneSpecApplicationAtATime` | compute_tools/src/compute.rs:793-1048 | the main thread and the configurator never apply a spec at the same time |
| `ComputeStatus.OverlapExactlyWhen` | compute_tools/src/compute_promote.rs:131-168 | two specs are applied at once if and only if a promotion applies its spec while the compute is starting or being configured |
| `ComputeStatus.OverlapIsReached` | compute_tools/src/compute_promote.rs:131-168 | counterexample: a promotion and the configurator apply specs at once |
| `ComputeStatus.PromotionAloneUnlessAsked` | compute_tools/src/compute_promote.rs:131-168 | a promotion of a running compute stays alone over every run in which nobody asks for a configuration |
| `ComputeStatus.DiagramHolds` | compute_tools/README.md:40-65 | every reachable status change is an arrow of the diagram, or the main thread entering Init from a pending status |
| `ComputeStatus.UndocumentedArrowsAreTaken` | compute_tools/README.md:40-65 | the three arrows missing from the diagram are taken by reachable runs |
| `ComputeStatus.NoLostWakeup` | compute_tools/src/configurator.rs:22-38 | nobody sleeps un-notified through a status it waits for; for refresh and failure, in lakebase mode |
| `ComputeStatus.ConfigurationIsDelivered` | compute_tools/src/http/routes/configure.rs:35-54 | an accepted configure request of a running compute is picked up by the configurator's next step, with its spec |
| `ComputeStatus.RefreshIsDeliveredExactlyWhen` | compute_tools/src/compute.rs:2072-2094 | in each of the three statuses that accept it, a refresh signal is acted on by the configurator's next step if and only if it was waiting, or is about to look in lakebase mode |
| `ComputeStatus.RefreshLostOutsideLakebase` | compute_tools/src/configurator.rs:22-38 | counterexample: outside lakebase mode a reachable state has the configurator asleep with a refresh pending |
| `ComputeStatus.ConfiguratorActs` | compute_tools/src/configurator.rs:13-60 | what the configurator does when it holds the lock, as equivalences on the status it sees: configures, fetches, stops, loops or sleeps |
| `ComputeStatus.FirstSpecIsStarted` | compute_tools/src/compute.rs:752-775 | a spec that arrives over HTTP is what the waiting main thread starts the compute with |
| `ComputeStatus.StartEnds` | compute_tools/src/compute.rs:793-1048 | whatever happens meanwhile short of a promotion, a start ends in Running if it succeeded and in Failed if not, with the spec it began with |
| `ComputeStatus.ConfigurationEnds` | compute_tools/src/configurator.rs:40-57 | an accepted configure request ends in Running if the spec could be applied and in Failed if not, with that spec, whatever happens meanwhile short of a promotion |
| `ComputeStatus.FetchedSpecIsTakenExactlyWhen` | compute_tools/src/configurator.rs:115-150 | a fetched spec replaces the present one and is applied if and only if its pageservers differ; otherwise the compute runs on with the present one |
| `ComputeStatus.RefreshIsAdopted` | compute_tools/src/configurator.rs:114-187 | a refresh with new pageservers ends in Running with the fetched spec, or asks for another refresh if it could not be applied, whatever happens meanwhile short of a promotion |
| `ComputeStatus.FailedFetchIsRepeated` | compute_tools/src/configurator.rs:163-187 | a failed fetch asks for another, an answer without a spec ends the process |
| `ComputeStatus.RenewalIsConfigured` | compute_tools/src/compute.rs:2237-2288 | a renewed certificate asks a running compute for a configuration with its present spec, and the configurator's next step takes it up |
| `ComputeStatus.RenewalIsNoticed` | compute_tools/src/compute.rs:2237-2288 | after a renewal the watcher looks at the status again; after a failed watch it never does |
| `ComputeStatus.RenewalOtherwise` | compute_tools/src/compute.rs:2237-2288 | in the other statuses it changes nothing, and stops if and only if the compute has failed or is terminating |
| `ComputeStatus.PromotionReplacesSpec` | compute_tools/src/compute_promote.rs:131-168 | a promotion replaces the spec and nothing else that is shared |
| `ComputeStatus.TerminationIsSticky` | compute_tools/src/compute.rs:1153-1190 | over every run of a started compute, a pending termination only ever becomes Terminated |
| `ComputeStatus.TerminationCompletes` | compute_tools/src/compute.rs:1153-1190 | a termination of a running compute stays pending, whatever happens, until Postgres has exited and been cleaned up after, and is completed then unless the safekeepers could not be synced |
| `ComputeStatus.TerminationIsFinalExactlyWhen` | compute_tools/src/http/routes/terminate.rs:24-59 | no continuation leaves a pending termination, if and only if the main thread is not about to start a spec |
| `ComputeStatus.TerminationBeforeSpecNeverCompletes` | compute_tools/src/compute.rs:752-775 | a termination accepted while the main thread waits for a spec never reaches Terminated |
| `ComputeStatus.StoppedConfiguratorNeverRefreshes` | compute_tools/src/configurator.rs:13-195 | once the configurator has stopped on a failure, the status stays Failed or RefreshConfigurationPending forever |
| `ComputeNodeObject.ComputeNode.SetStatus` | compute_tools/src/compute.rs:229-239 | status written and every waiter notified |
| `ComputeNodeObject.ComputeNode.Configure` | compute_tools/src/http/routes/configure.rs:35-54 | refines the configure section; accepted exactly in Empty and Running |
| `ComputeNodeObject.ComputeNode.Terminate` | compute_tools/src/http/routes/terminate.rs:24-59 | refines the terminate section; when it is accepted, which status follows, and when the process exit is queued |
| `ComputeNodeObject.ComputeNode.SignalRefreshConfiguration` | compute_tools/src/compute.rs:2072-2094 | refines the refresh section; succeeds exactly in four statuses |
| `ComputeNodeObject.ComputeNode.PromoteSetsSpec` | compute_tools/src/compute_promote.rs:135-163 | refines the promotion's locked replacement of the spec |
| `ComputeNodeObject.ComputeNode.WaitSpec` | compute_tools/src/compute.rs:752-759 | refines the guard of the wait loop |
| `ComputeNodeObject.ComputeNode.CleanupAfterPostgresExit` | compute_tools/src/compute.rs:1170-1183 | refines the last section of the clean-up; the exit is delayed exactly for a fast termination |
| `ComputeNodeObject.ComputeNode.ConfiguratorHoldsLock` | compute_tools/src/configurator.rs:13-60 | refines the configurator's locked stretch in both modes, fresh or woken |
| `ComputeNodeObject.ComputeNode.ConfiguratorReceivesSpec` | compute_tools/src/configurator.rs:115-150 | refines the handling of a fetched spec |
| `ComputeNodeObject.ComputeNode.CertWatcherHoldsLock` | compute_tools/src/compute.rs:2237-2288 | refines the certificate watcher's status loop, for every status |
| `PgCatalog.ExecAllConcat` | compute_tools/src/spec_apply.rs:574-663 | pipelined execution composes: a failed command changes nothing and fails the phase, later commands still run |
| `PgCatalog.ExecAllKeepsWellFormed` | compute_tools/src/spec_apply.rs:574-663 | after any commands, succeeding or not, every owner is an existing role |
| `PgCatalog.ExecAllKeepsSubs` | compute_tools/src/spec_apply.rs:574-663 | no command of any phase but the last makes or loses a subscription or touches the record |
| `SpecApply.DropsEffect` | compute_tools/src/spec_apply.rs:720-751 | each database is dropped or kept on its own account, in whatever order the hash map yields them |
| `SpecApply.DropInvalidAgrees` | compute_tools/src/spec_apply.rs:720-751 | succeeds if and only if the invalid databases can be dropped, and then the snapshot equals the catalog |
| `SpecApply.RenameDeleteAgrees` | compute_tools/src/spec_apply.rs:841-922 | succeeds if and only if rename targets are free and deleted databases hold no subscriptions, judged on names alone; then the snapshot equals the catalog |
| `SpecApply.RenameDeleteNames` | compute_tools/src/spec_apply.rs:841-922 | which databases exist after the operations |
| `SpecApply.CreateAlterEffect` | compute_tools/src/spec_apply.rs:923-984 | every command meets its precondition if and only if the owners it names exist; what each listed and each unlisted database ends up as, in snapshot and catalog |
| `SpecApply.CreateAlterAgreesExactlyWhen` | compute_tools/src/spec_apply.rs:923-984 | the snapshot equals the catalog, and every listed database has its listed owner, if and only if no owner is named like a quoted listed owner; every database created is granted to the privileged role |
| `SpecApply.CreateAlterSucceedsExactlyWhen` | compute_tools/src/spec_apply.rs:923-984 | the phase succeeds if and only if every listed owner is a role, or clashes with the quoted name of the present owner |
| `SpecApply.CreateAlterNames` | compute_tools/src/spec_apply.rs:923-984 | the listed databases are added, none removed |
| `SpecApply.CreateAlterKeepsFlags` | compute_tools/src/spec_apply.rs:923-984 | whatever the list, the snapshot still knows which databases exist and accept connections |
| `SpecApply.NoClash` | compute_tools/src/spec_apply.rs:923-984 | without a role named like the quoted form of a listed owner the snapshot always agrees |
| `SpecApply.ReapplyDatabases` | compute_tools/src/spec_apply.rs:923-984 | applied again, no database command is emitted if and only if no listed owner begins with a quote |
| `SpecApply.RolesConverge` | compute_tools/src/spec_apply.rs:786-840 | succeeds if and only if no listed role exists that the snapshot lacks; then a listed role whose stored text equals its password keeps it and any other holds nothing, its SCRAM verifier or "md5" and its hash; the new ones are privileged if and only if they do not log in by JWT; exactly the listed roles are added, nothing else changes |
| `SpecApply.ReapplyRoles` | compute_tools/src/pg_helpers.rs:146-167 | applied again, no role command is emitted if and only if every password is SCRAM or absent |
| `SpecApply.DropRolesEffect` | compute_tools/src/spec_apply.rs:1228-1240 | the deleted roles go, and only they, if and only if none owns anything any more |
| `PerDatabase.LocalStepKeepsResult` | compute_tools/src/spec_apply.rs:362-407 | one step of a task does not change where that task will end |
| `PerDatabase.InterleavingDoesNotMatter` | compute_tools/src/spec_apply.rs:235-289 | under every schedule that ends, the insides of the databases are as if the tasks had run one after another, and a task fails if and only if it fails alone |
| `PerDatabase.ReferencesEffect` | compute_tools/src/spec_apply.rs:1054-1109 | the reassign, revoke and drop commands of all deleted roles reassign every object of theirs to the new owner, lose none, and revoke what others had granted them |
| `PerDatabase.CleanOneRoleKeepsObjectsExactlyWhen` | compute_tools/src/spec_apply.rs:1070-1105 | objects survive the clean-up of a role if and only if the new owner exists or there were none |
| `PerDatabase.TaskEffect` | compute_tools/src/spec_apply.rs:991-1138 | a task on an accessible database with an existing owner never fails, and what it leaves inside |
| `PerDatabase.InaccessibleTask` | compute_tools/src/spec_apply.rs:995-1026 | a database that cannot be connected to is left alone |
| `PerDatabase.CleanedUpMeans` | compute_tools/src/spec_apply.rs:1054-1138 | afterwards no object belongs to a cleaned role and no privilege granted by others is left to one, every object is still there, with its old owner or the database's, the public schema has left the built-in owners and its default privileges are set |
| `DatabaseOwners.OwnerAfter` | compute_tools/src/spec_apply.rs:1054-1109 | a database nobody gives away keeps its owner, any other ends with one of those it is given to, unless one of those gives away in turn |
| `DatabaseOwners.EndsWith` | compute_tools/src/spec_apply.rs:1054-1109 | each of those can get it: there is a schedule that ends so |
| `DatabaseOwners.OrderMattersExactlyWhen` | compute_tools/src/spec_apply.rs:235-289 | two schedules end differently if and only if two tasks would give the same database to different roles |
| `DatabaseOwners.CanFinish` | compute_tools/src/spec_apply.rs:286-289 | any run of the tasks can be brought to its end |
| `DatabaseOwners.SharedDatabaseOrderMatters` | compute_tools/src/spec_apply.rs:235-289 | counterexample: when two tasks share a database, each can have its way with the objects |
| `ApplyStages.AfterKeepsWellFormed` | compute_tools/src/spec_apply.rs:40-354 | however far an apply gets, every owner is an existing role |
| `ApplyStages.PreDropClears` | compute_tools/src/spec_apply.rs:122-190 | beforehand exactly the databases to be deleted that accept connections lose their subscriptions, and nothing else changes |
| `ApplyStages.PreDropKeeps` | compute_tools/src/spec_apply.rs:122-190 | dropping subscriptions before databases are deleted leaves the snapshot valid and invalid databases alone |
| `ApplyStages.RolesApplied` | compute_tools/src/spec_apply.rs:192-230 | success condition and result of the phases up to the roles; the snapshot equals the catalog |
| `ApplyStages.RenamingAbsentRoleEndsIt` | compute_tools/src/spec_apply.rs:752-785 | renaming a role that the snapshot does not know ends the apply, with nothing done after the third phase |
| `ApplyStages.RenameApplied` | compute_tools/src/spec_apply.rs:841-922 | success condition, resulting names, agreement of snapshot and catalog |
| `ApplyStages.DatabasesApplied` | compute_tools/src/spec_apply.rs:923-984 | whatever the spec, the snapshot then knows exactly which databases exist and accept connections |
| `ApplyStages.RegularDatabasesApplied` | compute_tools/src/spec_apply.rs:923-984 | for a regular spec it knows the owners too, and the phase succeeds if and only if the listed owners exist |
| `ApplyStages.NoTaskFails` | compute_tools/src/spec_apply.rs:286-289 | with existing owners no task fails however far it gets, so the driver waits for all of them |
| `ApplyStages.TasksAchieve` | compute_tools/src/spec_apply.rs:232-289 | with existing owners no task fails and every database is cleaned up as if its task had run alone |
| `ApplyRows.RenamesNamedExactlyWhen` | compute_tools/src/spec_apply.rs:841-922 | the phase panics if and only if a rename of a database that is there when its turn comes lacks a new name |
| `ApplyRows.RowsForTasks` | compute_tools/src/spec_apply.rs:122-230 | the databases a regular spec hands to the tasks, with owners and contents, computed from the starting catalog and the spec alone |
| `ApplyRows.ReachesTasksExactlyWhen` | compute_tools/src/spec_apply.rs:192-230 | a regular spec gets as far as the tasks if and only if: invalid databases are no templates and hold no subscriptions; every renamed role exists; the privileged role is not newly listed; renames have new names that are free, and deleted databases hold no subscriptions but those dropped ahead, judged on the valid names; listed owners exist or are listed roles |
| `ApplyResults.UndeletedOwnerKept` | compute_tools/src/spec_apply.rs:1054-1109 | a role that is not deleted keeps its databases, under any schedule and however far it gets |
| `ApplyResults.OwnersSettle` | compute_tools/src/spec_apply.rs:1054-1109 | every database of a deleted role passes to the undeleted owner of some database a task connects to, if no other owner in line is deleted; the others stay |
| `ApplyResults.RaceExactlyWhen` | compute_tools/src/spec_apply.rs:235-289 | the schedule decides who owns a database if and only if a deleted role owns one and an accessible listed database is not the administrator's |
| `ApplyResults.RoleCanGoExactlyWhen` | compute_tools/src/spec_apply.rs:1054-1109 | after the tasks a deleted role owns nothing, whatever databases it had, if and only if before them it owned no object in the template or in an unreached database, no database it had just been created for, and nobody passes it objects in a database listed for it |
| `ApplyResults.SettlingWhen` | compute_tools/src/spec_apply.rs:1054-1109 | the proviso of `AppliesExactlyWhen` holds when no database is listed for a deleted role, and when no database belongs to one |
| `ApplyResults.ReleasableWhenOwnersStay` | compute_tools/src/spec_apply.rs:1054-1109 | when no database is listed for a deleted role, that leaves the template and the unreached databases |
| `ApplyResults.DeletedRolesGoExactlyWhen` | compute_tools/src/spec_apply.rs:1228-1240 | the roles can be dropped after the tasks if and only if each was releasable before them |
| `ApplyResults.ApplyNames` | compute_tools/src/spec_apply.rs:40-354 | a successful apply leaves exactly the databases and roles the spec describes |
| `ApplyResults.ConvergesExactlyWhen` | compute_tools/src/spec_apply.rs:786-984 | after a successful apply every listed database has its owner, every listed role the verifier of `RolesConverge`, new roles and databases their privileges, and deleted roles and invalid databases are gone, if and only if the spec does not ask for a role it deletes |
| `ApplyResults.NewRoleOwnsNothing` | compute_tools/src/spec_apply.rs:1228-1240 | a role the apply has just created owns nothing unless a database is listed for it |
| `ApplyResults.AppliesExactlyWhen` | compute_tools/src/spec_apply.rs:40-354 | a regular spec is applied, under every schedule, if and only if it reaches the tasks (the conditions of `ReachesTasksExactlyWhen`) and every deleted role is releasable (the condition of `RoleCanGoExactlyWhen`), both read off the starting catalog and the spec; unless a deleted role is listed for an accessible database while another deleted role owns one |
| `DeletedOwners.SuccessIsARace` | compute_tools/src/spec_apply.rs:1054-1109 | counterexample: with a database listed for one deleted role and another owned by a second, the same spec on the same catalog can succeed under one schedule and fail under another |
| `ApplyResults.ReapplyIsQuiet` | compute_tools/src/spec_apply.rs:786-984 | on a converged catalog the same spec without delta operations emits no role command if and only if the stored verifiers equal the listed passwords, as with SCRAM or none, and no database command if and only if no listed owner begins with a quote |
| `ApplyResults.ObjectsLostToQuotedName` | compute_tools/src/spec_apply.rs:923-984 | counterexample: an owner that does not exist passes for the role with its quoted name, and an object of a deleted role is dropped |
| `ApplySpec.MutableApplyContext.DropInvalidDatabases` | compute_tools/src/spec_apply.rs:720-751 | one drop per invalid database in any order, and the snapshot without them |
| `ApplySpec.MutableApplyContext.RenameRoles` | compute_tools/src/spec_apply.rs:752-785 | the loop panics if and only if some renamed role is not in the snapshot |
| `ApplySpec.MutableApplyContext.CreateAndAlterRoles` | compute_tools/src/spec_apply.rs:786-840 | the loop emits exactly the specified role commands |
| `ApplySpec.MutableApplyContext.RenameAndDeleteDatabases` | compute_tools/src/spec_apply.rs:841-922 | the loop rewrites the snapshot and emits commands as specified, including the panic on a missing new name |
| `ApplySpec.MutableApplyContext.CreateAndAlterDatabases` | compute_tools/src/spec_apply.rs:923-984 | the loop rewrites the snapshot and emits commands as specified |
| `ApplySpec.Postgres.Execute` | compute_tools/src/spec_apply.rs:592-656 | runs a phase's commands as the pipelined specification says |
| `ApplySpec.Postgres.RunTasks` | compute_tools/src/spec_apply.rs:235-289 | whatever order the scheduler picks, the result is that of some schedule; the driver awaits the tasks in order and stops at the first that failed while the others are anywhere, or is cut off; left alone it terminates |
| `ApplySpec.Postgres.StepTask` | compute_tools/src/spec_apply.rs:362-407 | one command or batch end of one task, with the databases REASSIGN OWNED moves |
| `ApplySpec.PreDropSubscriptions` | compute_tools/src/spec_apply.rs:122-190 | refines the pre-drop stage |
| `ApplySpec.CreatePrivilegedRole` | compute_tools/src/spec_apply.rs:679-692 | the privileged role exists afterwards, nothing else changes |
| `ApplySpec.DropInvalidPhase` | compute_tools/src/spec_apply.rs:720-751 | refines its stage |
| `ApplySpec.RolesPhase` | compute_tools/src/spec_apply.rs:752-840 | refines its stage, including the panic on renaming an absent role |
| `ApplySpec.RenameAndDeletePhase` | compute_tools/src/spec_apply.rs:841-922 | refines its stage |
| `ApplySpec.CreateAndAlterPhase` | compute_tools/src/spec_apply.rs:923-984 | refines its stage |
| `ApplySpec.PerDatabasePhase` | compute_tools/src/spec_apply.rs:232-289 | refines the stage of the tasks for the schedule that happened |
| `ApplySpec.DropRoles` | compute_tools/src/spec_apply.rs:1228-1240 | the emitted commands are those of the delete_role operations in order |
| `ApplySpec.DropRolesPhase` | compute_tools/src/spec_apply.rs:1228-1240 | refines its stage |
| `ApplySpec.FinalizeDropPhase` | compute_tools/src/spec_apply.rs:1298-1301 | refines the stage that writes the record |
| `ApplySpec.ApplySpecSql` | compute_tools/src/spec_apply.rs:40-354 | the driver, cut off after any phase or in the middle of the tasks, yields the staged function's result for some schedule; a successful apply of a regular spec leaves exactly the specified databases and roles and has converged if and only if the spec is coherent; it succeeds if and only if it is appliable, under the proviso of `AppliesExactlyWhen`; the record changes only with the subscriptions gone; all of that while nobody interferes |
| `DropSubscriptions.SucceededMeansGone` | compute_tools/src/spec_apply.rs:235-289 | whatever the spec, if the drop was scheduled and no task failed, no listed database that accepts connections holds a subscription |
| `DropSubscriptions.AfterSubs` | compute_tools/src/spec_apply.rs:63-99 | however far an apply gets it makes no subscription and writes the record last if at all; without the drop it loses none but those of databases to be deleted |
| `DropSubscriptions.RecordMeansGone` | compute_tools/src/spec_apply.rs:260-318 | an apply that nobody interferes with and that changes the record got through every phase, was asked for the drop, and left no subscription in an accessible listed database |
| `DropSubscriptions.AfterKeepsDb` | compute_tools/src/spec_apply.rs:63-99 | an apply without the drop that nobody interferes with leaves the subscriptions of a database it does not delete or rename |
| `Flights.RunKeepsInv` | compute_tools/src/spec_apply.rs:40-354 | over every history of overlapping applies, users and branching every owner exists, no subscription has a future id, and every command and task in flight comes from its spec, in its phase |
| `Flights.NextRecord` | compute_tools/src/spec_apply.rs:310-318 | the record changes only by the last phase of an apply that read it as absent, and to the present timeline |
| `FlightsAlone.AloneIsStaged` | compute_tools/src/spec_apply.rs:40-354 | every outcome of the staged apply, under every schedule and cut off after every phase, is reached in flight by the apply's own steps, whatever else stands still in flight |
| `SubscriptionHistory.RecordOnlyAfterEveryDrop` | compute_tools/src/spec_apply.rs:260-318 | over every history the record is written only by an apply that was asked for the drop, and for each database listed and accessible to it there was a moment, while it was at its tasks, when that database held no subscription |
| `SubscriptionHistory.RecordedMeansClean` | compute_tools/src/sql/finalize_drop_subscriptions.sql:1-21 | from then on the older subscriptions of those databases are gone for good, unless somebody moved them to another database meanwhile |
| `SubscriptionHistory.NeverDroppedAgain` | compute_tools/src/spec_apply.rs:63-99 | once recorded and with no apply in flight that has the drop ahead of it, a subscription that nobody drops or moves on purpose is there for good, whatever overlaps |
| `SubscriptionHistory.LostBeforeRecord` | compute_tools/src/spec_apply.rs:63-99 | counterexample from every unrecorded state: an apply may begin, and drop |
| `SubscriptionHistory.ThreatIsReal` | compute_tools/src/spec_apply.rs:235-289 | counterexample from every state, recorded or not, with an apply in flight that has the drop ahead of it: it can carry it out, dead or alive |
| `SubscriptionHistory.AbandonedTasksRunOn` | compute_tools/src/spec_apply.rs:286-289 | counterexample: the tasks an abandoned apply leaves behind drop all the same |
| `SubscriptionHistory.RestartMakesSafe` | compute_tools/src/spec_apply.rs:63-99 | once recorded, a subscription present at a restart of the compute is there for good |
| `SubscriptionHistory.BranchStartsOver` | compute_tools/src/sql/finalize_drop_subscriptions.sql:1-21 | on a new branch no drop is recorded, whatever the parent's record says, and every subscription is an inherited one |
| `SubscriptionHistory.SubscriptionStaysExactlyWhen` | compute_tools/src/spec_apply.rs:63-99 | a subscription in an accessible database survives everything that leaves it alone if and only if the drop is recorded for the timeline and no apply in flight that read the record as absent still has the drop for that database ahead of it, in a task or through phases that can still succeed; applies that delete or rename the database do not leave it alone |
| `OverlappingApplies.OverlapDropsNewSubscription` | compute_tools/src/spec_apply.rs:63-99 | counterexample: two applies read the record as absent, one writes it, a user makes a subscription, the other drops it |
| `OverlappingApplies.MadeBeforeRecordStays` | compute_tools/src/spec_apply.rs:310-318 | a subscription made between an apply's tasks and its last phase is there when the record is written, and for good |
| `SafekeeperSync.Sort` | compute_tools/src/compute.rs:284-288 | the result is sorted and a permutation |
| `SafekeeperSync.Validate` | compute_tools/src/compute.rs:267-302 | accepted if and only if not a primary, or the list is non-empty and without repetition; a reported duplicate occurs twice, and no safekeepers are reported if and only if there are none |
| `SafekeeperSync.CheckIfSyncedMeans` | compute_tools/src/sync_sk.rs:54-98 | synced at l if and only if every answer reports l flushed and committed |
| `SafekeeperSync.CheckSafekeepersSynced` | compute_tools/src/compute.rs:1468-1508 | the loop returns l if and only if the responses up to the one that made them more than half of the safekeepers, before errors were, all report l; and whenever all pings ended, fewer than half in errors, and all responses report l |
| `SafekeeperSync.FastPathIsTaken` | compute_tools/src/compute.rs:1468-1508 | when fewer than half of the pings end in errors and all responses agree, the fast path is taken in every order of arrival |
| `SafekeeperSync.FastPathIsSafe` | compute_tools/src/compute.rs:1438-1508 | if the fast path returns l, every position flushed on more than half of the safekeepers is at most l |
| `SafekeeperSync.OrdersAgree` | compute_tools/src/compute.rs:1468-1508 | two arrival orders of the same answers never return different positions |
| `SafekeeperSync.DuplicatesWouldBeUnsafe` | compute_tools/src/compute.rs:283-302 | counterexample with a repeated entry: the fast path returns 0 although more than half of the servers had flushed further |
| `PgText.IdentRoundTrip` | compute_tools/src/pg_helpers.rs:238-240 | a quoted identifier reads back with the text after it untouched, if and only if it is not empty and no quote follows |
| `PgText.EscapeQuotesCons` | compute_tools/src/pg_helpers.rs:37-52 | the two sequential replacements are one pass over the characters |
| `PgText.LiteralForm` | compute_tools/src/pg_helpers.rs:37-52 | both escapers put quotes around the escaped text; the literal is marked as an escape string if and only if the text holds a backslash |
| `PgText.LiteralRoundTrip` | compute_tools/src/pg_helpers.rs:37-45 | an escaped literal reads back with the text after it untouched, if and only if that text neither doubles the quote nor continues the constant |
| `PgText.ConfValueRoundTrip` | compute_tools/src/pg_helpers.rs:49-52 | an escaped configuration value reads back if and only if it has no newline |
| `PgText.RolePgOptions` | compute_tools/src/pg_helpers.rs:146-167 | the options followed by LOGIN and the password clause of the stored verifier |
| `PgText.PasswordRoundTrip` | compute_tools/src/pg_helpers.rs:150-164 | the unescaped password clause stores the intended verifier if and only if it holds no quote |
| `DollarQuote.TagLength` | compute_tools/src/pg_helpers.rs:248-265 | the least number of x's that does not occur in the string, at most one more than its length |
| `DollarQuote.PgQuoteDollar` | compute_tools/src/pg_helpers.rs:248-265 | the loop terminates with the shortest usable tag and an outer tag one longer |
| `DollarQuote.ScanDollarFindsFirst` | compute_tools/src/pg_helpers.rs:248-265 | PostgreSQL's scanner stops at the first occurrence of the closing delimiter |
| `DollarQuote.FirstAtEnd` | compute_tools/src/pg_helpers.rs:248-265 | the delimiter first recurs exactly at the end of the body, straddling matches included |
| `DollarQuote.DollarRoundTrip` | compute_tools/src/pg_helpers.rs:248-265 | the quoted string reads back, whatever follows |
| `DollarQuote.NestedRoundTrip` | compute_tools/src/pg_helpers.rs:248-265 | a block between outer tags with the quoted string pasted into a dollar-free template reads back as that block, and inside it the string reads back |
| `PostgresConfFile.EscapeSpecialCons` | control_plane/src/postgresql_conf.rs:58-85 | the three sequential replacements are one pass over the characters |
| `PostgresConfFile.BareExactlyWhen` | control_plane/src/postgresql_conf.rs:58-85 | a value is written without quotes if and only if it is digits after an optional sign and before optional letters, or a letter followed by letters and digits |
| `PostgresConfFile.ReadsBackExactlyWhen` | control_plane/src/postgresql_conf.rs:26-55 | the printed file reads back as the last setting of each option, if and only if every option name is an identifier |
| `PostgresConfFile.PostgresConf.Get` | control_plane/src/postgresql_conf.rs:26-28 | the value of the last setting of the option, and none if and only if it was never set |
| `PostgresConfFile.PostgresConf.Append` | control_plane/src/postgresql_conf.rs:35-39 | adds a line and a map entry and stays built from the settings so far |
| `PostgresConfFile.PostgresConf.Display` | control_plane/src/postgresql_conf.rs:48-55 | the text reads back as the map if and only if every option name is an identifier |
| `PathClean.PushComp` | endpoint_storage/src/lib.rs:56-68 | the stack after one component |
| `PathClean.CleanUtf8` | endpoint_storage/src/lib.rs:52-75 | the loop returns a tidy text that denotes the walk of the path, the one the lemmas below are about |
| `PathClean.CleanIsTheTidyText` | endpoint_storage/src/lib.rs:52-75 | a text is the cleaned path if and only if it is tidy and denotes the same walk: between its slashes only names, after a run of parents or the root, or else a single dot or slash |
| `PathClean.TidyCharacters` | endpoint_storage/src/lib.rs:52-75 | a tidy text has no two slashes in a row and none at its end but that of the root |
| `PathClean.CleanCompsCanonical` | endpoint_storage/src/lib.rs:52-75 | the output is a root or a run of parents, then only names; rooted exactly when the input is |
| `PathClean.CleanLeadsToTheSame` | endpoint_storage/src/lib.rs:52-75 | the cleaned text denotes the same walk as the input, from every directory |
| `PathClean.CleanIsIdempotent` | endpoint_storage/src/lib.rs:52-75 | cleaning twice is cleaning once |
| `PathClean.CleanDecidesWalk` | endpoint_storage/src/lib.rs:52-75 | two paths clean to the same text if and only if they denote the same walk |
| `PathClean.NormalizeKeyMeans` | endpoint_storage/src/lib.rs:40-49 | a key is accepted if and only if it leads somewhere and is absolute or stays below every directory; the result is the names it leads to |
| `PathClean.NormalizedSegments` | endpoint_storage/src/lib.rs:40-49 | between its slashes the normalized key holds exactly the names the key leads to |
| `PathClean.ObjectPathIsConfined` | endpoint_storage/src/lib.rs:104-118 | every accepted key names an object strictly below the endpoint's prefix, and its text is the segments of the prefix and then those names |
| `PathClean.SameObjectExactlyWhen` | endpoint_storage/src/lib.rs:104-118 | two accepted keys share an object if and only if they lead to the same place |
| `Murmur.Murmurhash32` | pageserver/benches/bench_ingest.rs:31-38 | the stepwise updates compute the function proved bijective below |
| `Murmur.HashIsBijective` | pageserver/benches/bench_ingest.rs:31-38 | a two-sided inverse on 32-bit words |
| `Murmur.KeysUniqueExactlyWhen` | pageserver/benches/bench_ingest.rs:41-48 | keys are pairwise distinct if and only if there are at most 2^32 puts |
| `Murmur.IngestKeys` | pageserver/benches/bench_ingest.rs:167-189 | the loop's keys, distinct if and only if there are at most 2^32 |
| `Murmur.EveryKeyIsUsed` | pageserver/benches/bench_ingest.rs:31-38 | every word is the key of some put |
| `Migration.Database.TryMigration` | compute_tools/src/migration.rs:96-124 | one transaction: effect and id together, or neither, also when the client never hears of the commit |
| `Migration.Database.RunMigrations` | compute_tools/src/migration.rs:127-161 | the loop refines the recursive specification; it reports success if and only if nothing between the stored id and the end of the list has a fault, and then the id is the end of the list or was beyond it |
| `Migration.RunEndsExactly` | compute_tools/src/migration.rs:127-161 | the same, and otherwise the id ends just before the first faulty migration, or at it when its commit went through unheard |
| `Migration.CompletesWhenUndisturbed` | compute_tools/src/migration.rs:127-161 | after any history, an attempt without faults that knows the whole list applies everything due |
| `Migration.HistoryIsConsistent` | compute_tools/src/migration.rs:127-161 | over any attempts, faults and binary versions the stored id is the length of the completed prefix and never goes back |
| `Migration.AppliedExactlyOnce` | compute_tools/src/migration.rs:96-161 | the effects are exactly the non-skipped migrations up to the id, each once, in list order |
| `AuditTail.ReadLineCapped` | compute_tools/src/audit_otel.rs:116-122 | reads up to a newline or 64 KiB; nothing exactly at the end of the file |
| `AuditTail.ReadAndEmit` | compute_tools/src/audit_otel.rs:85-97 | one turn of the loop: a chunk moves from unread to read, and its trimmed text is emitted unless empty |
| `AuditTail.ReadToEnd` | compute_tools/src/audit_otel.rs:85-99 | all chunks, or those before the read that failed, and the records emitted for them |
| `AuditTail.TailState.Tail` | compute_tools/src/audit_otel.rs:68-101 | the offset of this file as specified, all others untouched, including truncation and failed reads |
| `AuditTail.ChunksAreTheContent` | compute_tools/src/audit_otel.rs:85-97 | the chunks from an offset concatenate to the content from there |
| `AuditTail.ChunksAreMaximal` | compute_tools/src/audit_otel.rs:116-122 | every chunk but the last ends with a newline or is 64 KiB long |
| `AuditTail.RecordsOfOne` | compute_tools/src/audit_otel.rs:92-96 | a chunk yields nothing if and only if it is line-end bytes only, and otherwise all of it but its trailing line-end bytes |
| `AuditTail.RecordsConcat` | compute_tools/src/audit_otel.rs:85-97 | records are emitted chunk by chunk, in order |
| `AuditTail.TailedExactlyOnce` | compute_tools/src/audit_otel.rs:68-101 | for a growing file, over any number of polls the chunks are exactly the bytes before the offset, each at most 64 KiB with a newline only at its end |
| `AuditTail.TruncationStartsOver` | compute_tools/src/audit_otel.rs:72-75 | a file found smaller than the offset is tailed as if it had never been before |
| `AuditTail.TruncatedFileIsReadAgain` | compute_tools/src/audit_otel.rs:72-75 | so its whole new content is handed on, however it grows from there |
| `AuditTail.FailedPollRepeats` | compute_tools/src/audit_otel.rs:85-101 | a failed poll keeps its offset, so the next one hands the same chunks on again |
| `AuditTail.PollIsInvisibleExactlyWhen` | compute_tools/src/audit_otel.rs:85-122 | a poll in the middle does not change the chunks if and only if a chunk ends there |
| `AuditTail.LineEndIsBoundary` | compute_tools/src/audit_otel.rs:116-122 | a chunk ends after every newline |
| `SingleFlight.AtMostOneInFlight` | compute_tools/src/compute_prewarm.rs:59-91 | in every interleaving at most one prewarm and one offload run, accepted requests and started tasks match, and a spent token means an outstanding cancellation |
| `SingleFlight.RefusedExactlyWhileInFlight` | compute_tools/src/compute_prewarm.rs:188-228 | a prewarm is refused if and only if another is in flight, an offload if and only if another is in flight or the worker was ever killed during one |
| `SingleFlight.ReportsTheLast` | compute_tools/src/compute_prewarm.rs:59-91 | the states reported are in progress since the last request, or how the last one ended |
| `SingleFlight.PrewarmStartsUncancelledExactlyWhen` | compute_tools/src/compute_prewarm.rs:59-91 | a prewarm starts with a live token if and only if no cancellation is outstanding |
| `SingleFlight.LfcFields.PrewarmLfc` | compute_tools/src/compute_prewarm.rs:59-70 | refines the locked start of a prewarm |
| `SingleFlight.LfcFields.PrewarmDone` | compute_tools/src/compute_prewarm.rs:85-90 | refines the locked end of a prewarm |
| `SingleFlight.LfcFields.OffloadLfc` | compute_tools/src/compute_prewarm.rs:188-214 | refines the locked start of an offload |
| `SingleFlight.LfcFields.CancelPrewarm` | compute_tools/src/compute_prewarm.rs:280-282 | refines the cancellation |
| `SingleFlight.OnePromotionOneResult` | compute_tools/src/compute_promote.rs:12-39 | over any run at most one promotion starts, and every caller that returned got its single result |
| `SingleFlight.VerdictIsTheResult` | compute_tools/src/compute_promote.rs:12-39 | that result is the one the promotion sent, or that its sender was dropped |
| `SingleFlight.NobodyWaitsForever` | compute_tools/src/compute_promote.rs:31-38 | once it is over, every waiting caller can return, with that result |
| `LsnLease.TryAcquire` | compute_tools/src/lsn_lease.rs:112-154 | an expiry if and only if at least one lease was requested and all were granted, and then the earliest; an error if and only if a request failed |
| `LsnLease.MinLeaseMeans` | compute_tools/src/lsn_lease.rs:150-153 | the minimum over optional leases is an expiry if and only if all are |
| `LsnLease.SleepLeaves` | compute_tools/src/lsn_lease.rs:47-56 | the sleep leaves a minute, or half the validity if that is less |
| `LsnLease.SleepIsAtMostHalfExactlyWhen` | compute_tools/src/lsn_lease.rs:53-56 | the comment's bound holds if and only if the validity is at most two minutes |
| `LsnLease.RenewedInTime` | compute_tools/src/lsn_lease.rs:41-64 | a renewal starts before any shard's lease has ended |
| `LsnLease.HeldExactlyWhen` | compute_tools/src/lsn_lease.rs:41-64 | over any number of rounds no lease runs out before the next is granted, if and only if the requests and waits of each renewal, any of them cut short, fit into what the sleep left |
| `LsnLease.AcquireRound` | compute_tools/src/lsn_lease.rs:68-109 | from the first attempt of a round to the grant all requests and waits pass, less what changes of the pageservers cut short |
| `LsnLease.LsnLeaseBgTask` | compute_tools/src/lsn_lease.rs:41-64 | the renewal loop holds the lease throughout, if and only if each renewal fits |
| `LsnLease.TenFailuresSurvived` | compute_tools/src/lsn_lease.rs:68-109 | a lease of two minutes or more survives ten failed instantaneous requests in a row, and no more if every wait lasts its full time |
| `LsnLease.RetryPeriodMeans` | compute_tools/src/lsn_lease.rs:68-109 | the delays are the geometric series cut off at a minute, never falling |
| `LsnLease.RetryWait` | compute_tools/src/lsn_lease.rs:97-103 | each wait is that delay in whole milliseconds |
| `LsnLease.AcquireWithRetry` | compute_tools/src/lsn_lease.rs:68-109 | retries exactly the failed attempts, with intended delays between 500 and 60000 ms |

## Left out

- The phases for schemas, extensions, grants, pgaudit and Hadron roles: they do not touch the databases, owners, verifiers and subscriptions modelled here, and none of them panics. What `RenameRoles` would rename is not modelled, since it only panics or emits nothing.
- Privileges beyond membership in the privileged role, its grant on new databases, grants on tables by others and the default privileges of the public schema; tablespaces in `REASSIGN OWNED` and `DROP OWNED`.
- The included SQL scripts are represented by their effect on owners, template flags, subscriptions and the record.
- Connection failures to existing databases, statement timeouts, the concurrency limit and the order in which failed tasks are reported: only refused connections and failing commands are modelled.
- ApplySpec.ApplySpecSql: cut off between phases and anywhere among the tasks, not between two pipelined commands of a phase, and with nobody else at work; `Flights` has both, but no method bodies.
- Sessions: ALTER DATABASE RENAME and DROP DATABASE also fail while other sessions are connected to the database, and a task keeps its connection when the database is renamed. In the model they depend on the catalog alone.
- What an apply reads at its start: databases and roles are read in one step, the record in a later one.
- ApplyResults.AppliesExactlyWhen: success is characterised for specs that leave the system database and `cloud_admin` alone, and do not list a deleted role for an accessible database while another deleted role owns one. There success can depend on the schedule (`SuccessIsARace`), and such a spec never converges (`ConvergesExactlyWhen`).
- ApplyStages.RegularDatabasesApplied: regular specs list each name once and no role is named like the quoted form of a listed owner; other specs are covered phase by phase (`CreateAlterAgreesExactlyWhen`, `CreateAlterKeepsFlags`), not by the end-to-end result.
- SpecApply.ReapplyRoles: md5 passwords are compared without the prefix they are stored with, so they are sent again on every apply; only the exact condition is stated.
- `ComputeStatus`: HTTP callers waiting for Running or Terminated, what a promotion does between its look at the spec and its replacement, and liveness of the threads (only that no wake-up is lost and that a delivered request is acted on).
- PgText.LiteralRoundTrip: numeric escapes in string constants, identifier truncation to 63 bytes and the rejection of NUL are not modelled.
- The serializers of generic options and of databases (`to_pg_option`, `to_pg_setting`): they only assemble the escapers proved here.
- DollarQuote.NestedRoundTrip: the template holds no dollar and no gap made of x's alone, as the four SQL scripts do; other templates are not covered.
- PostgresConfFile.ReadsBackExactlyWhen: comments, include directives and raw lines added by `append_line` are not part of the language read back; option names are compared with their case, where PostgreSQL ignores it.
- `PathClean`: Windows path prefixes, and the check of the storage library that the final path is relative.
- Murmur.IngestKeys: the masked layout `RandomReuse` promises no uniqueness and is left out.
- `Migration`: the text replacement of role names in lakebase mode, and the types of the stored id.
- AuditTail.ReadToEnd: lossy UTF-8 conversion and hashing of emitted lines; the file does not change while one poll reads it.
- `SingleFlight`: what prewarming, offloading and promoting do, panics inside a prewarm, and the periodic worker's look at the prewarm state, which is taken under a separate lock and excludes nothing.
- Pageserver, safekeeper and storage controller internals, HTTP routing, TLS, process management, metrics and logging: either foreign code or plumbing without a property beyond its own body.
