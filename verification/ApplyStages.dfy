/**
 `apply_spec_sql` as a function of what Postgres holds: the phases in order, each reading
 and rewriting the snapshot, under any schedule of the per-database tasks and cut off after
 any phase.  What a whole apply achieves is proved here; the code is in `ApplySpec`.
 */
module ApplyStages {
  import opened Prelude
  import opened PgText
  import opened PgCatalog
  import opened SpecApply
  import opened PerDatabase
  import opened DatabaseOwners

  datatype Params = Params(privilegedRole: string, systemDb: string, jwksRoles: set<string>)

  /** One request to apply a spec on a timeline. */
  datatype Job = Job(timeline: string, p: Params, spec: Spec)

  /** The catalog, the snapshot of its databases, and whether nothing has failed. */
  datatype Progress = Progress(c: Catalog, dbs: Dbs, ok: bool)

  // ----- the phases ----------------------------------------------------------------------

  predicate Deletes(ops: seq<DeltaOp>, n: string) {
    exists op <- ops :: op.action == "delete_db" && op.name == n
  }

  predicate PreDropped(dbs: Dbs, ops: seq<DeltaOp>, n: string) {
    Accessible(dbs, UserDb(ListedDb(n, "cloud_admin"))) && Deletes(ops, n)
  }

  /** Subscriptions of the databases about to be deleted are dropped where the snapshot says we can connect. */
  function PreDrop(c: Catalog, dbs: Dbs, ops: seq<DeltaOp>): Catalog {
    c.(dbs := map n | n in c.dbs ::
         if PreDropped(dbs, ops, n) then c.dbs[n].(inside := c.dbs[n].inside.(subs := {})) else c.dbs[n])
  }

  function WithRole(c: Catalog, role: string): Catalog {
    c.(roles := if role in c.roles then c.roles else c.roles[role := None])
  }

  function DropInvalidStage(s: Progress): Progress {
    var names := InvalidNames(s.dbs);
    Progress(s.c.(dbs := s.c.dbs - set n | n in names && n in s.c.dbs && Droppable(s.c.dbs[n])), s.dbs - names,
             forall n <- names :: n in s.c.dbs ==> Droppable(s.c.dbs[n]))
  }

  /** `RenameRoles` emits nothing for a role the snapshot knows and panics on any other. */
  predicate RenamedRolesKnown(roles: Verifiers, ops: seq<DeltaOp>) {
    forall op <- ops :: op.action == "rename_role" ==> op.name in roles
  }

  /** `RenameRoles` and `CreateAndAlterRoles` */
  function RolesStage(s: Progress, roles: Verifiers, job: Job): Progress {
    if !RenamedRolesKnown(roles, job.spec.deltaOperations) then s.(ok := false)
    else
      var (c, ok) := ExecAll(s.c, RoleCommands(roles, job.p.jwksRoles, job.spec.roles));
      Progress(c, s.dbs, ok)
  }

  /** A rename without a new name is a panic. */
  function RenameStage(s: Progress, ops: seq<DeltaOp>): Progress {
    match RenameDelete(s.dbs, ops)
    case None => s.(ok := false)
    case Some(phase) =>
      var (c, ok) := ExecAll(s.c, phase.cmds);
      Progress(c, phase.dbs, ok)
  }

  function CreateStage(s: Progress, listed: seq<ListedDb>): Progress {
    var phase := CreateAlter(s.dbs, listed);
    var (c, ok) := ExecAll(s.c, phase.cmds);
    Progress(c, phase.dbs, ok)
  }

  function Target(p: Params, db: Db): string {
    if db.SystemDb? then p.systemDb else db.db.name
  }

  function TaskOf(dbs: Dbs, roles: set<string>, job: Job, drop: bool, db: Db): Task {
    Task(Target(job.p, db), Batches(dbs, roles, job.spec.deltaOperations, db, SubPhases(drop)), false)
  }

  /** One task per listed database, then one for the system database. */
  function TasksOf(dbs: Dbs, roles: set<string>, job: Job, drop: bool): seq<Task> {
    seq(|job.spec.databases|, i requires 0 <= i < |job.spec.databases| =>
      TaskOf(dbs, roles, job, drop, UserDb(job.spec.databases[i])))
    + [TaskOf(dbs, roles, job, drop, SystemDb)]
  }

  function WorldOf(s: Progress, roles: set<string>, job: Job, drop: bool): World {
    World(s.c.dbs, TasksOf(s.dbs, roles, job, drop))
  }

  /** The driver awaits the tasks in order and gives up at the first that has failed; the others run on. */
  predicate GivenUp(w: World) {
    exists i :: 0 <= i < |w.tasks| && w.tasks[i].failed && forall j :: 0 <= j <= i ==> w.tasks[j].todo == []
  }

  predicate Over(w: World) {
    Finished(w) || GivenUp(w)
  }

  predicate Succeeded(w: World) {
    Finished(w) && forall t <- w.tasks :: !t.failed
  }

  function TasksStage(s: Progress, roles: set<string>, job: Job, drop: bool, schedule: seq<nat>): Progress {
    var w := RunSchedule(s.c.roles.Keys, WorldOf(s, roles, job, drop), schedule);
    Progress(s.c.(dbs := w.dbs), s.dbs, Succeeded(w))
  }

  function DropRolesStage(s: Progress, ops: seq<DeltaOp>): Progress {
    var (c, ok) := ExecAll(s.c, DropRoleCommands(ops));
    Progress(c, s.dbs, ok)
  }

  function RecordStage(s: Progress, job: Job, drop: bool): Progress {
    if drop then s.(c := s.c.(record := Some(job.timeline))) else s
  }

  const STAGES: nat := 9

  /** `roles` is the snapshot of the roles, `drop` whether the drop of subscriptions is scheduled. */
  function Stage(k: nat, s: Progress, roles: Verifiers, drop: bool, job: Job, schedule: seq<nat>): Progress {
    if k == 1 then s.(c := PreDrop(s.c, s.dbs, job.spec.deltaOperations))
    else if k == 2 then s.(c := WithRole(s.c, job.p.privilegedRole))
    else if k == 3 then DropInvalidStage(s)
    else if k == 4 then RolesStage(s, roles, job)
    else if k == 5 then RenameStage(s, job.spec.deltaOperations)
    else if k == 6 then CreateStage(s, job.spec.databases)
    else if k == 7 then TasksStage(s, roles.Keys, job, drop, schedule)
    else if k == 8 then DropRolesStage(s, job.spec.deltaOperations)
    else if k == 9 then RecordStage(s, job, drop)
    else s
  }

  /** The flag of the spec outlives restarts; the record says whether this timeline is done. */
  predicate NeedsDrop(c: Catalog, job: Job) {
    job.spec.dropSubscriptionsBeforeStart && c.record != Some(job.timeline)
  }

  /** An apply that got `k` phases far; a failed phase is the last. */
  function After(k: nat, c: Catalog, job: Job, schedule: seq<nat>): Progress {
    if k == 0 then Progress(c, Snapshot(c), true)
    else
      var s := After(k - 1, c, job, schedule);
      if s.ok then Stage(k, s, c.roles, NeedsDrop(c, job), job, schedule) else s
  }

  /** Before the tasks are spawned the schedule plays no part. */
  lemma {:induction false} SameBefore(k: nat, c: Catalog, job: Job, s1: seq<nat>, s2: seq<nat>)
    requires k <= 6
    ensures After(k, c, job, s1) == After(k, c, job, s2)
  {
    if k > 0 {
      SameBefore(k - 1, c, job, s1, s2);
    }
  }

  lemma {:induction false} OkBefore(j: nat, k: nat, c: Catalog, job: Job, schedule: seq<nat>)
    requires j <= k && After(k, c, job, schedule).ok
    ensures After(j, c, job, schedule).ok
    decreases k
  {
    if j < k {
      OkBefore(j, k - 1, c, job, schedule);
    }
  }

  // ----- referential integrity ------------------------------------------------------------

  lemma {:induction false} RunKeepsWellFormed(roles: set<string>, w: World, schedule: seq<nat>)
    requires RowsWellFormed(roles, w.dbs)
    ensures RowsWellFormed(roles, RunSchedule(roles, w, schedule).dbs)
    decreases |schedule|
  {
    if schedule != [] {
      if schedule[0] < |w.tasks| {
        StepKeepsWellFormed(roles, w, schedule[0]);
        RunKeepsWellFormed(roles, WorldStep(roles, w, schedule[0]), schedule[1..]);
      } else {
        RunKeepsWellFormed(roles, w, schedule[1..]);
      }
    }
  }

  lemma StepKeepsWellFormed(roles: set<string>, w: World, i: nat)
    requires i < |w.tasks| && RowsWellFormed(roles, w.dbs)
    ensures RowsWellFormed(roles, WorldStep(roles, w, i).dbs)
  {
    var t := w.tasks[i];
    if t.target in w.dbs {
      assert RowWellFormed(roles, w.dbs[t.target]);
      LocalStepKeepsWellFormed(roles, w.dbs[t.target].inside, t);
    }
  }

  lemma EarlyStagesKeepWellFormed(k: nat, s: Progress, roles: Verifiers, drop: bool, job: Job, schedule: seq<nat>)
    requires WellFormed(s.c) && k <= 3
    ensures WellFormed(Stage(k, s, roles, drop, job, schedule).c)
  {
    var c1 := Stage(k, s, roles, drop, job, schedule).c;
    forall n <- c1.dbs ensures RowWellFormed(c1.roles.Keys, c1.dbs[n]) {
      assert RowWellFormed(s.c.roles.Keys, s.c.dbs[n]);
    }
  }

  lemma StageKeepsWellFormed(k: nat, s: Progress, roles: Verifiers, drop: bool, job: Job, schedule: seq<nat>)
    requires WellFormed(s.c)
    ensures WellFormed(Stage(k, s, roles, drop, job, schedule).c)
  {
    if k <= 3 {
      EarlyStagesKeepWellFormed(k, s, roles, drop, job, schedule);
    } else if k == 4 {
      ExecAllKeepsWellFormed(s.c, RoleCommands(roles, job.p.jwksRoles, job.spec.roles));
    } else if k == 5 && RenameDelete(s.dbs, job.spec.deltaOperations).Some? {
      ExecAllKeepsWellFormed(s.c, RenameDelete(s.dbs, job.spec.deltaOperations).value.cmds);
    } else if k == 6 {
      ExecAllKeepsWellFormed(s.c, CreateAlter(s.dbs, job.spec.databases).cmds);
    } else if k == 7 {
      RunKeepsWellFormed(s.c.roles.Keys, WorldOf(s, roles.Keys, job, drop), schedule);
    } else if k == 8 {
      ExecAllKeepsWellFormed(s.c, DropRoleCommands(job.spec.deltaOperations));
    }
  }

  /** However far an apply gets, every owner is an existing role. */
  lemma {:induction false} AfterKeepsWellFormed(k: nat, c: Catalog, job: Job, schedule: seq<nat>)
    requires WellFormed(c)
    ensures WellFormed(After(k, c, job, schedule).c)
  {
    if k > 0 {
      AfterKeepsWellFormed(k - 1, c, job, schedule);
      StageKeepsWellFormed(k, After(k - 1, c, job, schedule), c.roles, NeedsDrop(c, job), job, schedule);
    }
  }

  // ----- up to the roles ------------------------------------------------------------------

  function ValidNames(c: Catalog): set<string> {
    set n | n in c.dbs && !c.dbs[n].invalid
  }

  /**
   Beforehand, exactly the databases to be deleted that accept connections lose their subscriptions,
   which then do not stand in the way; nothing else changes.
   */
  lemma PreDropClears(c: Catalog, ops: seq<DeltaOp>, n: string)
    requires n in c.dbs
    ensures var row, row1 := c.dbs[n], PreDrop(c, Snapshot(c), ops).dbs[n];
            && row1 == row.(inside := row.inside.(subs := row1.inside.subs))
            && row1.inside.subs == if Deletes(ops, n) && !row.restrictConn && !row.invalid then {} else row.inside.subs
  {
  }

  /** Dropping subscriptions beforehand leaves the snapshot valid, and invalid databases alone. */
  lemma PreDropKeeps(c: Catalog, ops: seq<DeltaOp>)
    ensures var c1 := PreDrop(c, Snapshot(c), ops);
            && Snapshot(c1) == Snapshot(c) && ValidNames(c1) == ValidNames(c)
            && (InvalidDroppable(c1) <==> InvalidDroppable(c))
            && c1 == c.(dbs := c1.dbs)
  {
    var c1 := PreDrop(c, Snapshot(c), ops);
    forall n <- c.dbs | c.dbs[n].invalid ensures c1.dbs[n] == c.dbs[n] {
    }
  }

  lemma DropInvalidAgreesStage(s: Progress)
    requires s.dbs == Snapshot(s.c)
    ensures var s1 := DropInvalidStage(s);
            && (s1.ok <==> InvalidDroppable(s.c)) && s1.c == s.c.(dbs := s1.c.dbs)
            && (s1.ok ==> s1.dbs == Snapshot(s1.c) && NoInvalid(s1.c) && s1.c.dbs.Keys == ValidNames(s.c))
  {
    assert InvalidNames(s.dbs) == set n | n in s.c.dbs && s.c.dbs[n].invalid;
    assert forall n <- InvalidNames(s.dbs) :: s.c.dbs[n].invalid;
  }

  /** CREATE ROLE fails for a role that the phase before has just created. */
  predicate PrivilegedFits(c: Catalog, job: Job) {
    job.p.privilegedRole in RoleNames(job.spec.roles) ==> job.p.privilegedRole in c.roles
  }

  lemma ThirdStage(c: Catalog, job: Job, schedule: seq<nat>)
    ensures var s := After(3, c, job, schedule);
            && (s.ok <==> InvalidDroppable(c))
            && s.c.roles == WithRole(c, job.p.privilegedRole).roles && s.c.templateObjects == c.templateObjects
            && (s.ok ==> s.dbs == Snapshot(s.c) && NoInvalid(s.c) && s.c.dbs.Keys == ValidNames(c))
  {
    PreDropKeeps(c, job.spec.deltaOperations);
    assert After(0, c, job, schedule) == Progress(c, Snapshot(c), true);
    var s1 := After(1, c, job, schedule);
    assert s1 == Progress(PreDrop(c, Snapshot(c), job.spec.deltaOperations), Snapshot(c), true);
    var s2 := After(2, c, job, schedule);
    assert s2 == s1.(c := WithRole(s1.c, job.p.privilegedRole));
    assert Snapshot(s2.c) == Snapshot(s1.c) && ValidNames(s2.c) == ValidNames(s1.c);
    assert InvalidDroppable(s2.c) == InvalidDroppable(s1.c);
    DropInvalidAgreesStage(s2);
  }

  /** The role phase leaves the databases alone. */
  lemma RolesAgreeStage(s: Progress, roles: Verifiers, job: Job)
    ensures var s1 := RolesStage(s, roles, job); s1.dbs == s.dbs && s1.c == s.c.(roles := s1.c.roles, privileged := s1.c.privileged)
  {
    RoleCommandsKeepDbs(roles, job.p.jwksRoles, s.c, job.spec.roles);
  }

  /** Every listed role holds what its password asks for, and the new ones are privileged unless they log in by JWT. */
  ghost predicate RolesAsListed(c: Catalog, c1: Catalog, job: Job) {
    && (forall r <- job.spec.roles :: RoleSettled(c.roles, c1.roles, r))
    && NewPrivileged(job.p.jwksRoles, c, job.spec.roles, c1)
  }

  lemma SettledSinceStart(c: Catalog, c1: Catalog, c2: Catalog, job: Job)
    requires c1.roles == WithRole(c, job.p.privilegedRole).roles && PrivilegedFits(c, job)
    requires RolesOutcome(job.p.jwksRoles, c1, job.spec.roles, c2)
    ensures RolesAsListed(c, c2, job)
  {
    forall r <- job.spec.roles ensures r.name in c1.roles <==> r.name in c.roles {
      assert r.name in RoleNames(job.spec.roles);
    }
  }

  /** What the phases up to the roles lead to, and when they succeed. */
  lemma RolesApplied(c: Catalog, job: Job, schedule: seq<nat>)
    ensures var s := After(4, c, job, schedule);
            s.ok ==> && InvalidDroppable(c)
                     && s.dbs == Snapshot(s.c) && NoInvalid(s.c) && s.c.dbs.Keys == ValidNames(c)
    ensures DistinctRoles(job.spec.roles) ==>
            var s := After(4, c, job, schedule);
            && (s.ok <==> InvalidDroppable(c) && RenamedRolesKnown(c.roles, job.spec.deltaOperations) && PrivilegedFits(c, job))
            && (s.ok ==> && s.c.roles.Keys == c.roles.Keys + {job.p.privilegedRole} + RoleNames(job.spec.roles)
                         && RolesAsListed(c, s.c, job))
  {
    ThirdStage(c, job, schedule);
    var s3, s := After(3, c, job, schedule), After(4, c, job, schedule);
    if s3.ok {
      assert s == RolesStage(s3, c.roles, job);
      RolesAgreeStage(s3, c.roles, job);
      assert Snapshot(s.c) == Snapshot(s3.c);
      if DistinctRoles(job.spec.roles) {
        RolesConverge(c.roles, job.p.jwksRoles, s3.c, job.spec.roles);
        FitsExactlyWhen(c, s3.c, job);
        if s.ok {
          SettledSinceStart(c, s3.c, s.c, job);
        }
      }
    }
  }

  lemma FitsExactlyWhen(c: Catalog, c1: Catalog, job: Job)
    requires c1.roles == WithRole(c, job.p.privilegedRole).roles
    ensures (forall r <- job.spec.roles :: RoleFits(c.roles, c1, r)) <==> PrivilegedFits(c, job)
  {
    if !PrivilegedFits(c, job) {
      var r :| r in job.spec.roles && r.name == job.p.privilegedRole;
      assert !RoleFits(c.roles, c1, r);
    } else {
      forall r <- job.spec.roles ensures RoleFits(c.roles, c1, r) {
        assert r.name in RoleNames(job.spec.roles);
      }
    }
  }

  /** Renaming a role that the snapshot does not know ends the apply there: nothing after the third phase happens. */
  lemma {:induction false} RenamingAbsentRoleEndsIt(k: nat, c: Catalog, job: Job, schedule: seq<nat>, op: DeltaOp)
    requires k >= 4 && op in job.spec.deltaOperations && op.action == "rename_role" && op.name !in c.roles
    ensures !After(k, c, job, schedule).ok && After(k, c, job, schedule).c == After(3, c, job, schedule).c
  {
    if k > 4 {
      RenamingAbsentRoleEndsIt(k - 1, c, job, schedule, op);
    } else {
      assert After(4, c, job, schedule).c == After(3, c, job, schedule).c;
    }
  }

  // ----- up to the databases --------------------------------------------------------------

  lemma RenameApplied(c: Catalog, job: Job, schedule: seq<nat>)
    requires After(4, c, job, schedule).ok
    ensures var s4, s := After(4, c, job, schedule), After(5, c, job, schedule);
            && (s.ok <==> && RenameDelete(Snapshot(s4.c), job.spec.deltaOperations).Some?
                          && TargetsFree(s4.c.dbs.Keys, Busy(s4.c.dbs), job.spec.deltaOperations))
            && (s.ok ==> && s.dbs == Snapshot(s.c) && NoInvalid(s.c) && s.c == s4.c.(dbs := s.c.dbs)
                         && s.c.dbs.Keys == NamesAfter(ValidNames(c), job.spec.deltaOperations))
  {
    RolesApplied(c, job, schedule);
    var s4, s := After(4, c, job, schedule), After(5, c, job, schedule);
    var ops := job.spec.deltaOperations;
    assert s == RenameStage(s4, ops);
    if RenameDelete(s4.dbs, ops).Some? {
      RenameDeleteAgrees(s4.c, ops);
      RenameDeleteNames(s4.dbs, ops);
      assert Snapshot(s4.c).Keys == s4.c.dbs.Keys && Snapshot(s.c).Keys == s.c.dbs.Keys;
    }
  }

  /** No role, old or new, is named like the quoted form of a listed owner; each name is listed once. */
  ghost predicate Regular(c: Catalog, job: Job) {
    && DistinctDbs(job.spec.databases) && DistinctRoles(job.spec.roles)
    && NoQuotedOwner(c.roles.Keys + RoleNames(job.spec.roles) + {job.p.privilegedRole}, job.spec.databases)
  }

  /** Whatever the spec, the snapshot knows which databases exist and accept connections. */
  lemma DatabasesApplied(c: Catalog, job: Job, schedule: seq<nat>)
    requires After(6, c, job, schedule).ok
    ensures var s := After(6, c, job, schedule);
            && SameFlags(s.dbs, s.c)
            && s.c.dbs.Keys == NamesAfter(ValidNames(c), job.spec.deltaOperations) + DbNames(job.spec.databases)
  {
    OkBefore(4, 6, c, job, schedule);
    OkBefore(5, 6, c, job, schedule);
    RenameApplied(c, job, schedule);
    var s5, s := After(5, c, job, schedule), After(6, c, job, schedule);
    assert s == CreateStage(s5, job.spec.databases);
    CreateAlterKeepsFlags(s5.dbs, s5.c, job.spec.databases);
    CreateAlterNames(s5.dbs, job.spec.databases);
    assert s5.dbs.Keys == s5.c.dbs.Keys;
  }

  /** The privileged role has its privileges on every listed database that was not there before. */
  ghost predicate NewGranted(names: set<string>, listed: seq<ListedDb>, c: Catalog) {
    forall db <- listed | db.name !in names :: db.name in c.dbs && c.dbs[db.name].granted
  }

  /** Of a regular spec it knows the owners as well, and the listed databases have theirs. */
  lemma RegularDatabasesApplied(c: Catalog, job: Job, schedule: seq<nat>)
    requires WellFormed(c) && Regular(c, job) && After(5, c, job, schedule).ok
    ensures var s5, s := After(5, c, job, schedule), After(6, c, job, schedule);
            && (s.ok <==> forall db <- job.spec.databases :: db.owner in s5.c.roles)
            && (s.ok ==> && s.dbs == Snapshot(s.c) && NoInvalid(s.c) && s.c == s5.c.(dbs := s.c.dbs)
                         && (forall db <- job.spec.databases :: HasOwner(s.c.dbs, db))
                         && NewGranted(s5.c.dbs.Keys, job.spec.databases, s.c))
  {
    OkBefore(4, 5, c, job, schedule);
    RolesApplied(c, job, schedule);
    RenameApplied(c, job, schedule);
    AfterKeepsWellFormed(5, c, job, schedule);
    var s5, s := After(5, c, job, schedule), After(6, c, job, schedule);
    assert s == CreateStage(s5, job.spec.databases);
    NoClash(s5.c, job.spec.databases);
    CreateAlterSucceedsExactlyWhen(s5.c, job.spec.databases);
    if s.ok {
      CreateAlterAgreesExactlyWhen(s5.c, job.spec.databases);
    }
  }

  // ----- the tasks ---------------------------------------------------------------------------

  /** A task is spawned for each listed database and for the system database. */
  ghost predicate HasTask(spec: Spec, db: Db) {
    db.UserDb? ==> db.db in spec.databases
  }

  lemma TaskOfIsSpawned(dbs: Dbs, roles: set<string>, job: Job, drop: bool, db: Db) returns (i: nat)
    requires HasTask(job.spec, db)
    ensures i < |TasksOf(dbs, roles, job, drop)| && TasksOf(dbs, roles, job, drop)[i] == TaskOf(dbs, roles, job, drop, db)
  {
    if db.UserDb? {
      i :| 0 <= i < |job.spec.databases| && job.spec.databases[i] == db.db;
    } else {
      i := |job.spec.databases|;
    }
  }

  function SpawnedFor(job: Job, i: nat): Db {
    if i < |job.spec.databases| then UserDb(job.spec.databases[i]) else SystemDb
  }

  lemma SpawnedIsTaskOf(dbs: Dbs, roles: set<string>, job: Job, drop: bool, i: nat)
    requires i < |TasksOf(dbs, roles, job, drop)|
    ensures HasTask(job.spec, SpawnedFor(job, i))
    ensures TasksOf(dbs, roles, job, drop)[i] == TaskOf(dbs, roles, job, drop, SpawnedFor(job, i))
  {
  }

  lemma {:induction false} ReferenceCommandsMean(roles: set<string>, db: Db, ops: seq<DeltaOp>, role: string, to: string)
    ensures ReassignOwned(role, to) in ReferenceCommands(roles, db, ops) <==>
            role in CleanedRoles(roles, db, ops) && to == NewOwner(db)
    decreases |ops|
  {
    if ops != [] {
      CleanedRolesCons(roles, db, ops);
      ReferenceCommandsMean(roles, db, ops[1..], role, to);
    }
  }

  /** A spawned task gives away what the roles it cleans up own, to the owner of its database. */
  lemma SpawnedGives(live: set<string>, dbs: Dbs, roles: set<string>, job: Job, drop: bool, db: Db, role: string, to: string)
    ensures var t := TaskOf(dbs, roles, job, drop, db);
            Gives(live, t, role, to) <==>
            && Accessible(dbs, db) && role in CleanedRoles(roles, db, job.spec.deltaOperations)
            && to == NewOwner(db) && role in live && to in live
  {
    ReferenceCommandsMean(roles, db, job.spec.deltaOperations, role, to);
    assert TaskOf(dbs, roles, job, drop, db).todo[0] == BatchFor(dbs, roles, job.spec.deltaOperations, db, DeleteDBRoleReferences);
  }

  lemma SpawnedGivesFirst(dbs: Dbs, roles: set<string>, job: Job, drop: bool, db: Db)
    ensures GivesFirst(TaskOf(dbs, roles, job, drop, db))
  {
    var todo: seq<seq<LocalCommand>> := TaskOf(dbs, roles, job, drop, db).todo;
    var subs := SubPhases(drop);
    forall j, k | 0 < j < |todo| && 0 <= k < |todo[j]| ensures !todo[j][k].ReassignOwned? {
      assert subs[j] != DeleteDBRoleReferences;
    }
  }

  /** What the tasks rely on: one per database, and existing owners. */
  ghost predicate ReadyForTasks(s: Progress, roles: set<string>, job: Job) {
    && DistinctDbs(job.spec.databases) && roles <= s.c.roles.Keys && WellFormed(s.c)
    && (forall db <- job.spec.databases :: HasOwner(s.c.dbs, db) && db.name != job.p.systemDb)
    && job.p.systemDb in s.c.dbs
    && "cloud_admin" in s.c.roles && "cloud_admin" !in DeletedRoles(job.spec.deltaOperations)
  }

  lemma ReadyTarget(s: Progress, roles: set<string>, job: Job, db: Db)
    requires ReadyForTasks(s, roles, job) && HasTask(job.spec, db)
    ensures Target(job.p, db) in s.c.dbs && NewOwner(db) in s.c.roles
    ensures NewOwner(db) !in CleanedRoles(roles, db, job.spec.deltaOperations)
  {
    if db.UserDb? {
      assert HasOwner(s.c.dbs, db.db);
      assert RowWellFormed(s.c.roles.Keys, s.c.dbs[db.db.name]);
    }
  }

  lemma TasksAreSeparate(s: Progress, roles: set<string>, job: Job, drop: bool)
    requires ReadyForTasks(s, roles, job)
    ensures Separate(WorldOf(s, roles, job, drop))
  {
    var tasks := TasksOf(s.dbs, roles, job, drop);
    forall i: nat | i < |tasks| ensures tasks[i].target in s.c.dbs {
      ReadyTarget(s, roles, job, SpawnedFor(job, i));
    }
    forall i, j | 0 <= i < j < |tasks| ensures tasks[i].target != tasks[j].target {
      assert job.spec.databases[i] in job.spec.databases;
    }
  }

  /** How the inside of a database with a task ends up. */
  function Expected(s: Progress, roles: set<string>, job: Job, drop: bool, db: Db): Inside
    requires Target(job.p, db) in s.c.dbs
  {
    var x := s.c.dbs[Target(job.p, db)].inside;
    if Accessible(s.dbs, db) then CleanedUp(x, CleanedRoles(roles, db, job.spec.deltaOperations), db, drop) else x
  }

  lemma TaskResult(s: Progress, roles: set<string>, job: Job, drop: bool, db: Db)
    requires ReadyForTasks(s, roles, job) && HasTask(job.spec, db)
    ensures Target(job.p, db) in s.c.dbs
    ensures RunAlone(s.c.roles.Keys, InsidesOf(s.c.dbs), TaskOf(s.dbs, roles, job, drop, db))
            == (Expected(s, roles, job, drop, db), false)
  {
    ReadyTarget(s, roles, job, db);
    var x := s.c.dbs[Target(job.p, db)].inside;
    if Accessible(s.dbs, db) {
      TaskEffect(s.c.roles.Keys, s.dbs, roles, x, db, job.spec.deltaOperations, drop);
    } else {
      InaccessibleTask(s.c.roles.Keys, s.dbs, roles, x, db, job.spec.deltaOperations, drop);
    }
  }

  /** However far they get, none of the tasks fails, so the driver waits for all of them. */
  lemma NoTaskFails(s: Progress, roles: set<string>, job: Job, drop: bool, schedule: seq<nat>)
    requires ReadyForTasks(s, roles, job)
    ensures var w := RunSchedule(s.c.roles.Keys, WorldOf(s, roles, job, drop), schedule);
            (forall i :: 0 <= i < |w.tasks| ==> !w.tasks[i].failed) && (Over(w) <==> Finished(w))
  {
    var live, w := s.c.roles.Keys, WorldOf(s, roles, job, drop);
    var w1 := RunSchedule(live, w, schedule);
    TasksAreSeparate(s, roles, job, drop);
    ScheduleKeepsOutcome(live, w, schedule);
    forall i: nat | i < |w1.tasks| ensures !w1.tasks[i].failed {
      SpawnedIsTaskOf(s.dbs, roles, job, drop, i);
      TaskResult(s, roles, job, drop, SpawnedFor(job, i));
      assert RunAlone(live, InsidesOf(w1.dbs), w1.tasks[i]) == RunAlone(live, InsidesOf(w.dbs), w.tasks[i]);
    }
  }

  /** No task fails, and every database is cleaned up as if its task had run alone. */
  lemma TasksAchieve(s: Progress, roles: set<string>, job: Job, drop: bool, schedule: seq<nat>)
    requires ReadyForTasks(s, roles, job)
    requires Finished(RunSchedule(s.c.roles.Keys, WorldOf(s, roles, job, drop), schedule))
    ensures var s1 := TasksStage(s, roles, job, drop, schedule);
            && s1.ok && s1.c.dbs.Keys == s.c.dbs.Keys
            && (forall db | HasTask(job.spec, db) :: Target(job.p, db) in s.c.dbs &&
                  s1.c.dbs[Target(job.p, db)].inside == Expected(s, roles, job, drop, db))
            && (forall n <- s.c.dbs | (forall db | HasTask(job.spec, db) :: Target(job.p, db) != n) ::
                  s1.c.dbs[n].inside == s.c.dbs[n].inside)
  {
    var live, w := s.c.roles.Keys, WorldOf(s, roles, job, drop);
    var w1, xs := RunSchedule(live, w, schedule), InsidesOf(s.c.dbs);
    TasksAreSeparate(s, roles, job, drop);
    InterleavingDoesNotMatter(live, w, schedule);
    RunKeepsHeaders(live, w, schedule);
    forall t <- w1.tasks ensures !t.failed {
      var i: nat :| i < |w1.tasks| && w1.tasks[i] == t;
      SpawnedIsTaskOf(s.dbs, roles, job, drop, i);
      TaskResult(s, roles, job, drop, SpawnedFor(job, i));
    }
    forall db | HasTask(job.spec, db)
      ensures Target(job.p, db) in s.c.dbs && w1.dbs[Target(job.p, db)].inside == Expected(s, roles, job, drop, db)
    {
      TaskResult(s, roles, job, drop, db);
      var i := TaskOfIsSpawned(s.dbs, roles, job, drop, db);
      OneByOneAt(live, xs, w.tasks, i);
      assert InsidesOf(w1.dbs)[Target(job.p, db)] == Expected(s, roles, job, drop, db);
    }
    forall n <- s.c.dbs | forall db | HasTask(job.spec, db) :: Target(job.p, db) != n
      ensures w1.dbs[n].inside == s.c.dbs[n].inside
    {
      forall t <- w.tasks ensures t.target != n {
        var i: nat :| i < |w.tasks| && w.tasks[i] == t;
        SpawnedIsTaskOf(s.dbs, roles, job, drop, i);
      }
      OneByOneElsewhere(live, xs, w.tasks, n);
      assert InsidesOf(w1.dbs)[n] == xs[n];
    }
  }
}
