/** What an apply leaves behind, when it succeeds, and what its schedule can decide. */
module ApplyResults {
  import opened Prelude
  import opened PgText
  import opened PgCatalog
  import opened SpecApply
  import opened PerDatabase
  import opened DatabaseOwners
  import opened ApplyStages
  import opened ApplyRows

  // ----- owners nobody gives away -------------------------------------------------------

  predicate NeverGives(t: Task, role: string) {
    forall j, k :: 0 <= j < |t.todo| && 0 <= k < |t.todo[j]| ==>
      !(t.todo[j][k].ReassignOwned? && t.todo[j][k].role == role)
  }

  lemma StepNeverGives(roles: set<string>, x: Inside, t: Task, role: string)
    requires NeverGives(t, role)
    ensures NeverGives(LocalStep(roles, x, t).1, role) && NeverGives(Refused(t), role)
    ensures LocalMove(roles, t).Some? ==> LocalMove(roles, t).value.0 != role
  {
    if t.todo != [] {
      var t1 := LocalStep(roles, x, t).1;
      if t.todo[0] == [] {
        assert forall j :: 0 <= j < |t1.todo| ==> t1.todo[j] == t.todo[j + 1];
      } else {
        assert forall j :: 0 < j < |t1.todo| ==> t1.todo[j] == t.todo[j];
        assert forall k :: 0 <= k < |t1.todo[0]| ==> t1.todo[0][k] == t.todo[0][k + 1];
      }
    }
  }

  lemma {:induction false} OwnerKept(roles: set<string>, w: World, schedule: seq<nat>, n: string)
    requires n in w.dbs && forall i :: 0 <= i < |w.tasks| ==> NeverGives(w.tasks[i], w.dbs[n].owner)
    ensures n in RunSchedule(roles, w, schedule).dbs && RunSchedule(roles, w, schedule).dbs[n].owner == w.dbs[n].owner
    decreases |schedule|
  {
    if schedule != [] {
      var i := schedule[0];
      if i < |w.tasks| {
        var t := w.tasks[i];
        StepNeverGives(roles, if t.target in w.dbs then w.dbs[t.target].inside else NO_INSIDE, t, w.dbs[n].owner);
        OwnerKept(roles, WorldStep(roles, w, i), schedule[1..], n);
      } else {
        OwnerKept(roles, w, schedule[1..], n);
      }
    }
  }

  lemma {:induction false} ReferencesNeverGive(roles: set<string>, db: Db, ops: seq<DeltaOp>, role: string)
    requires role !in DeletedRoles(ops)
    ensures forall k :: 0 <= k < |ReferenceCommands(roles, db, ops)| ==>
              var cmd := ReferenceCommands(roles, db, ops)[k]; !(cmd.ReassignOwned? && cmd.role == role)
    decreases |ops|
  {
    if ops != [] {
      DeletedRolesCons(ops);
      ReferencesNeverGive(roles, db, ops[1..], role);
    }
  }

  /** A role that is not deleted keeps its databases, under any schedule and however far it gets. */
  lemma UndeletedOwnerKept(s: Progress, roles: set<string>, job: Job, drop: bool, schedule: seq<nat>, n: string)
    requires n in s.c.dbs && s.c.dbs[n].owner !in DeletedRoles(job.spec.deltaOperations)
    ensures var s1 := TasksStage(s, roles, job, drop, schedule); n in s1.c.dbs && s1.c.dbs[n].owner == s.c.dbs[n].owner
  {
    var w := WorldOf(s, roles, job, drop);
    forall i: nat | i < |w.tasks| ensures NeverGives(w.tasks[i], s.c.dbs[n].owner) {
      SpawnedIsTaskOf(s.dbs, roles, job, drop, i);
      ReferencesNeverGive(roles, SpawnedFor(job, i), job.spec.deltaOperations, s.c.dbs[n].owner);
    }
    OwnerKept(s.c.roles.Keys, w, schedule, n);
  }

  // ----- databases of deleted roles ------------------------------------------------------

  /** The deleted roles that the snapshot knows: those the tasks clean up after. */
  function Gone(roles: set<string>, job: Job): set<string> {
    DeletedRoles(job.spec.deltaOperations) * roles
  }

  /** No database is listed for a role that the spec deletes. */
  predicate OwnersStay(spec: Spec) {
    forall db <- spec.databases :: db.owner !in DeletedRoles(spec.deltaOperations)
  }

  /** A task cleans up after every deleted role but the owner of its own database. */
  lemma CleanedAre(s: Progress, roles: set<string>, job: Job, db: Db)
    requires ReadyForTasks(s, roles, job) && HasTask(job.spec, db)
    ensures CleanedRoles(roles, db, job.spec.deltaOperations) == Gone(roles, job) - {NewOwner(db)}
  {
    var ops := job.spec.deltaOperations;
    forall r <- Gone(roles, job) - {NewOwner(db)} ensures r in CleanedRoles(roles, db, ops) {
      var op :| op in ops && op.action == "delete_role" && op.name == r;
      assert Cleans(roles, db, op);
    }
  }

  lemma HeirStays(spec: Spec, db: Db)
    requires OwnersStay(spec) && HasTask(spec, db) && "cloud_admin" !in DeletedRoles(spec.deltaOperations)
    ensures NewOwner(db) !in DeletedRoles(spec.deltaOperations)
  {
  }

  lemma SpawnedWorld(s: Progress, roles: set<string>, job: Job, drop: bool)
    requires ReadyForTasks(s, roles, job)
    ensures var live, w := s.c.roles.Keys, WorldOf(s, roles, job, drop);
            && Separate(w) && Shaped(w) && OneHeir(live, w)
            && forall i: nat, a, b :: i < |w.tasks| ==>
                 (Gives(live, w.tasks[i], a, b) <==>
                  && Accessible(s.dbs, SpawnedFor(job, i)) && a in Gone(roles, job)
                  && b == NewOwner(SpawnedFor(job, i)) && a != b)
  {
    var live, w := s.c.roles.Keys, WorldOf(s, roles, job, drop);
    TasksAreSeparate(s, roles, job, drop);
    forall i: nat, a, b | i < |w.tasks|
      ensures Gives(live, w.tasks[i], a, b) <==>
              && Accessible(s.dbs, SpawnedFor(job, i)) && a in Gone(roles, job)
              && b == NewOwner(SpawnedFor(job, i)) && a != b
    {
      SpawnedIsTaskOf(s.dbs, roles, job, drop, i);
      SpawnedGives(live, s.dbs, roles, job, drop, SpawnedFor(job, i), a, b);
      CleanedAre(s, roles, job, SpawnedFor(job, i));
      ReadyTarget(s, roles, job, SpawnedFor(job, i));
    }
    forall i: nat | i < |w.tasks| ensures w.tasks[i].target in w.dbs && GivesFirst(w.tasks[i]) {
      SpawnedIsTaskOf(s.dbs, roles, job, drop, i);
      SpawnedGivesFirst(s.dbs, roles, job, drop, SpawnedFor(job, i));
      ReadyTarget(s, roles, job, SpawnedFor(job, i));
    }
  }

  /** The owner of some database a task connects to. */
  ghost predicate IsHeir(dbs: Dbs, job: Job, role: string) {
    exists db :: HasTask(job.spec, db) && Accessible(dbs, db) && NewOwner(db) == role
  }

  lemma GivenToMeans(s: Progress, roles: set<string>, job: Job, drop: bool, role: string, to: string)
    requires ReadyForTasks(s, roles, job)
    ensures GivenTo(s.c.roles.Keys, WorldOf(s, roles, job, drop), role, to) <==>
            role in Gone(roles, job) && IsHeir(s.dbs, job, to) && role != to
  {
    var live, w := s.c.roles.Keys, WorldOf(s, roles, job, drop);
    SpawnedWorld(s, roles, job, drop);
    if GivenTo(live, w, role, to) {
      var i: nat :| i < |w.tasks| && Gives(live, w.tasks[i], role, to);
      SpawnedIsTaskOf(s.dbs, roles, job, drop, i);
    }
    if role in Gone(roles, job) && IsHeir(s.dbs, job, to) && role != to {
      var db :| HasTask(job.spec, db) && Accessible(s.dbs, db) && NewOwner(db) == to;
      var i := TaskOfIsSpawned(s.dbs, roles, job, drop, db);
      SpawnedGives(live, s.dbs, roles, job, drop, db, role, to);
      CleanedAre(s, roles, job, db);
      ReadyTarget(s, roles, job, db);
    }
  }

  lemma AdminIsHeir(dbs: Dbs, job: Job)
    ensures IsHeir(dbs, job, "cloud_admin")
  {
    assert HasTask(job.spec, SystemDb) && Accessible(dbs, SystemDb) && NewOwner(SystemDb) == "cloud_admin";
  }

  /** Whoever can be given what `role` owns is not itself deleted. */
  ghost predicate HeirsStay(s: Progress, job: Job, role: string) {
    forall to | IsHeir(s.dbs, job, to) && to != role :: to !in DeletedRoles(job.spec.deltaOperations)
  }

  /** So nobody passes it on. */
  lemma HeirsKeep(s: Progress, roles: set<string>, job: Job, drop: bool, role: string)
    requires ReadyForTasks(s, roles, job) && (role in Gone(roles, job) ==> HeirsStay(s, job, role))
    ensures NoChain(s.c.roles.Keys, WorldOf(s, roles, job, drop), role)
  {
    var live, w := s.c.roles.Keys, WorldOf(s, roles, job, drop);
    SpawnedWorld(s, roles, job, drop);
    forall i, j, b, c | 0 <= i < |w.tasks| && 0 <= j < |w.tasks| && Gives(live, w.tasks[i], role, b)
      ensures !Gives(live, w.tasks[j], b, c)
    {
      SpawnedIsTaskOf(s.dbs, roles, job, drop, i);
      assert IsHeir(s.dbs, job, b);
    }
  }

  /**
   Every database of a deleted role passes to the owner of some database a task connects to,
   if none of those is deleted as well; the others stay.
   */
  lemma OwnersSettle(s: Progress, roles: set<string>, job: Job, drop: bool, schedule: seq<nat>, n: string)
    requires ReadyForTasks(s, roles, job) && n in s.c.dbs
    requires s.c.dbs[n].owner in Gone(roles, job) ==> HeirsStay(s, job, s.c.dbs[n].owner)
    requires Finished(RunSchedule(s.c.roles.Keys, WorldOf(s, roles, job, drop), schedule))
    ensures var s1, o := TasksStage(s, roles, job, drop, schedule), s.c.dbs[n].owner;
            && n in s1.c.dbs
            && (if o in Gone(roles, job)
                then IsHeir(s.dbs, job, s1.c.dbs[n].owner) && s1.c.dbs[n].owner !in DeletedRoles(job.spec.deltaOperations)
                else s1.c.dbs[n].owner == o)
  {
    var live, w := s.c.roles.Keys, WorldOf(s, roles, job, drop);
    var o, o1 := s.c.dbs[n].owner, RunSchedule(live, w, schedule).dbs;
    SpawnedWorld(s, roles, job, drop);
    HeirsKeep(s, roles, job, drop, o);
    OwnerAfter(live, w, schedule, n);
    AdminIsHeir(s.dbs, job);
    forall to ensures GivenTo(live, w, o, to) <==> o in Gone(roles, job) && IsHeir(s.dbs, job, to) && o != to {
      GivenToMeans(s, roles, job, drop, o, to);
    }
    assert o in Gone(roles, job) ==> GivenTo(live, w, o, "cloud_admin");
  }

  lemma AllHeirsStay(s: Progress, job: Job, role: string)
    requires OwnersStay(job.spec) && "cloud_admin" !in DeletedRoles(job.spec.deltaOperations)
    ensures HeirsStay(s, job, role)
  {
    forall to | IsHeir(s.dbs, job, to) ensures to !in DeletedRoles(job.spec.deltaOperations) {
      var db :| HasTask(job.spec, db) && Accessible(s.dbs, db) && NewOwner(db) == to;
      HeirStays(job.spec, db);
    }
  }

  /**
   The order in which the tasks run decides who owns a database in the end, exactly when a
   deleted role owns one and some other database belongs to somebody but the administrator.
   */
  lemma RaceExactlyWhen(s: Progress, roles: set<string>, job: Job, drop: bool)
    requires ReadyForTasks(s, roles, job) && OwnersStay(job.spec)
    ensures OrderMatters(s.c.roles.Keys, WorldOf(s, roles, job, drop)) <==>
            && (exists n <- s.c.dbs :: s.c.dbs[n].owner in Gone(roles, job))
            && (exists db <- job.spec.databases :: Accessible(s.dbs, UserDb(db)) && db.owner != "cloud_admin")
  {
    var live, w := s.c.roles.Keys, WorldOf(s, roles, job, drop);
    SpawnedWorld(s, roles, job, drop);
    forall role ensures NoChain(live, w, role) {
      AllHeirsStay(s, job, role);
      HeirsKeep(s, roles, job, drop, role);
    }
    OrderMattersExactlyWhen(live, w);
    AdminIsHeir(s.dbs, job);
    forall role, to ensures GivenTo(live, w, role, to) <==> role in Gone(roles, job) && IsHeir(s.dbs, job, to) {
      GivenToMeans(s, roles, job, drop, role, to);
      AllHeirsStay(s, job, "");
      AllHeirsStay(s, job, role);
    }
    if n, db :| n in s.c.dbs && s.c.dbs[n].owner in Gone(roles, job)
                && db in job.spec.databases && Accessible(s.dbs, UserDb(db)) && db.owner != "cloud_admin" {
      assert HasTask(job.spec, UserDb(db)) && NewOwner(UserDb(db)) == db.owner;
      assert IsHeir(s.dbs, job, db.owner);
      assert GivenTo(live, w, w.dbs[n].owner, db.owner) && GivenTo(live, w, w.dbs[n].owner, "cloud_admin");
    }
    if !Agreed(live, w) {
      var n, a, b :| n in w.dbs && GivenTo(live, w, w.dbs[n].owner, a) && GivenTo(live, w, w.dbs[n].owner, b) && a != b;
      var heir := if a != "cloud_admin" then a else b;
      var db :| HasTask(job.spec, db) && Accessible(s.dbs, db) && NewOwner(db) == heir;
      assert db.UserDb? && db.db in job.spec.databases;
    }
  }

  // ----- roles that can go ----------------------------------------------------------------

  /** A connection to `n` is made by one of the tasks. */
  predicate Reached(rows: DbRows, job: Job, n: string) {
    n == job.p.systemDb
    || (n in DbNames(job.spec.databases) && n in rows && !rows[n].restrictConn && !rows[n].invalid)
  }

  /** The public schema has left the built-in owners already. */
  predicate PublicSettled(x: Inside) {
    "public" !in x.objects || !BuiltinOwner(x.objects["public"])
  }

  /**
   The task of `n` leaves the role no object: where no task connects it has none, and in a
   listed database of its own nobody passes it any.
   */
  predicate LeavesNone(rows: DbRows, gone: set<string>, job: Job, role: string, n: string)
    requires n in rows
  {
    var x := rows[n].inside;
    if !Reached(rows, job, n) then OwnsNoObject(role, x)
    else n != job.p.systemDb && rows[n].owner == role ==>
           (forall o <- x.objects :: x.objects[o] !in gone) && PublicSettled(x)
  }

  /** What a deleted role must not own when the tasks are spawned; `roles` are those of the snapshot. */
  ghost predicate Releasable(rows: DbRows, templateObjects: map<string, string>, roles: set<string>, job: Job, role: string) {
    && (forall o <- templateObjects :: templateObjects[o] != role)
    && (role !in roles ==> forall n <- rows :: rows[n].owner != role)
    && (forall n <- rows :: LeavesNone(rows, Gone(roles, job), job, role, n))
  }

  /** Whoever is listed for a database that a task connects to keeps what it is given. */
  ghost predicate Settling(rows: DbRows, roles: set<string>, job: Job) {
    forall n <- rows, db <- job.spec.databases |
      rows[n].owner in Gone(roles, job) && Reached(rows, job, db.name) && db.owner != rows[n].owner ::
      db.owner !in DeletedRoles(job.spec.deltaOperations)
  }

  /** So it is when no database is listed for a deleted role, or no database belongs to one. */
  lemma SettlingWhen(rows: DbRows, roles: set<string>, job: Job)
    ensures OwnersStay(job.spec) ==> Settling(rows, roles, job)
    ensures (forall n <- rows :: rows[n].owner !in Gone(roles, job)) ==> Settling(rows, roles, job)
  {
  }

  lemma ReachedIsAccessible(s: Progress, roles: set<string>, job: Job, db: Db)
    requires ReadyForTasks(s, roles, job) && SameFlags(s.dbs, s.c) && HasTask(job.spec, db)
    ensures Reached(s.c.dbs, job, Target(job.p, db)) <==> Accessible(s.dbs, db)
  {
    if db.UserDb? {
      assert HasOwner(s.c.dbs, db.db) && db.db.name in DbNames(job.spec.databases);
    }
  }

  lemma SettlingMeans(s: Progress, roles: set<string>, job: Job, n: string)
    requires ReadyForTasks(s, roles, job) && SameFlags(s.dbs, s.c) && Settling(s.c.dbs, roles, job)
    requires n in s.c.dbs && s.c.dbs[n].owner in Gone(roles, job)
    ensures HeirsStay(s, job, s.c.dbs[n].owner)
  {
    forall to | IsHeir(s.dbs, job, to) && to != s.c.dbs[n].owner ensures to !in DeletedRoles(job.spec.deltaOperations) {
      var db :| HasTask(job.spec, db) && Accessible(s.dbs, db) && NewOwner(db) == to;
      ReachedIsAccessible(s, roles, job, db);
      if db.UserDb? {
        assert db.db in job.spec.databases;
      }
    }
  }

  /** Who owns an object once its task is done: somebody as before, the owner of the database, or neither. */
  lemma CleanedUpOwns(x: Inside, gone: set<string>, db: Db, drop: bool, role: string)
    requires NewOwner(db) !in gone
    ensures var x1 := CleanedUp(x, gone, db, drop);
            && (role in gone ==> OwnsNoObject(role, x1))
            && (role !in gone && role != NewOwner(db) && OwnsNoObject(role, x) ==> OwnsNoObject(role, x1))
            && (db.UserDb? && role == NewOwner(db) ==>
                  (OwnsNoObject(role, x1) <==>
                   (forall o <- x.objects :: x.objects[o] !in gone && x.objects[o] != role) && PublicSettled(x)))
  {
    var objects := Reowned(x.objects, gone, NewOwner(db));
    var x1 := CleanedUp(x, gone, db, drop);
    ReownedMeans(x.objects, gone, NewOwner(db));
    if db.UserDb? && role == NewOwner(db) && !OwnsNoObject(role, x1) {
      var o :| o in x1.objects && x1.objects[o] == role;
      assert o in x.objects;
    }
    if db.UserDb? && role == NewOwner(db) {
      if o :| o in x.objects && (x.objects[o] in gone || x.objects[o] == role) {
        assert objects[o] == role && x1.objects[o] == role;
      } else if !PublicSettled(x) {
        assert x1.objects["public"] == role;
      }
    }
  }

  lemma TaskLeavesNone(s: Progress, roles: set<string>, job: Job, drop: bool, db: Db, role: string)
    requires ReadyForTasks(s, roles, job) && SameFlags(s.dbs, s.c) && HasTask(job.spec, db)
    requires role in DeletedRoles(job.spec.deltaOperations)
    requires var n := Target(job.p, db);
             role in roles || (n in s.c.dbs && s.c.dbs[n].owner != role && OwnsNoObject(role, s.c.dbs[n].inside))
    ensures var n := Target(job.p, db);
            && n in s.c.dbs
            && (OwnsNoObject(role, Expected(s, roles, job, drop, db)) <==> LeavesNone(s.c.dbs, Gone(roles, job), job, role, n))
  {
    var n := Target(job.p, db);
    ReadyTarget(s, roles, job, db);
    ReachedIsAccessible(s, roles, job, db);
    CleanedAre(s, roles, job, db);
    assert db.UserDb? ==> HasOwner(s.c.dbs, db.db) && n != job.p.systemDb;
    if Accessible(s.dbs, db) {
      CleanedUpOwns(s.c.dbs[n].inside, Gone(roles, job) - {NewOwner(db)}, db, drop, role);
    }
  }

  /** What the tasks leave of a role in any one database. */
  lemma RowLeavesNone(s: Progress, roles: set<string>, job: Job, drop: bool, schedule: seq<nat>, role: string, n: string)
    requires ReadyForTasks(s, roles, job) && SameFlags(s.dbs, s.c) && Settling(s.c.dbs, roles, job) && n in s.c.dbs
    requires role in DeletedRoles(job.spec.deltaOperations)
    requires role in roles || (s.c.dbs[n].owner != role && OwnsNoObject(role, s.c.dbs[n].inside))
    requires Finished(RunSchedule(s.c.roles.Keys, WorldOf(s, roles, job, drop), schedule))
    ensures var s1 := TasksStage(s, roles, job, drop, schedule);
            n in s1.c.dbs && (OwnsNothingIn(role, s1.c.dbs[n]) <==> LeavesNone(s.c.dbs, Gone(roles, job), job, role, n))
  {
    TasksAchieve(s, roles, job, drop, schedule);
    if s.c.dbs[n].owner in Gone(roles, job) {
      SettlingMeans(s, roles, job, n);
    }
    OwnersSettle(s, roles, job, drop, schedule, n);
    if db :| HasTask(job.spec, db) && Target(job.p, db) == n {
      TaskLeavesNone(s, roles, job, drop, db, role);
    } else {
      Untasked(s.c.dbs, job, n);
    }
  }

  lemma Untasked(rows: DbRows, job: Job, n: string)
    requires forall db | HasTask(job.spec, db) :: Target(job.p, db) != n
    ensures !Reached(rows, job, n)
  {
    assert HasTask(job.spec, SystemDb) && Target(job.p, SystemDb) == job.p.systemDb;
    forall db <- job.spec.databases ensures db.name != n {
      assert HasTask(job.spec, UserDb(db)) ==> Target(job.p, UserDb(db)) != n;
    }
  }

  /** After the tasks a deleted role owns nothing any more exactly when it was releasable before them. */
  lemma RoleCanGoExactlyWhen(s: Progress, roles: set<string>, job: Job, drop: bool, schedule: seq<nat>, role: string)
    requires ReadyForTasks(s, roles, job) && SameFlags(s.dbs, s.c) && Settling(s.c.dbs, roles, job)
    requires role in DeletedRoles(job.spec.deltaOperations)
    requires OwnedBy(roles + ListedOwners(job.spec.databases), s.c)
    requires Finished(RunSchedule(s.c.roles.Keys, WorldOf(s, roles, job, drop), schedule))
    ensures var s1 := TasksStage(s, roles, job, drop, schedule);
            OwnsNothing(role, s1.c.dbs, s1.c.templateObjects) <==> Releasable(s.c.dbs, s.c.templateObjects, roles, job, role)
  {
    var s1 := TasksStage(s, roles, job, drop, schedule);
    RunKeepsHeaders(s.c.roles.Keys, WorldOf(s, roles, job, drop), schedule);
    if role !in roles && exists n <- s.c.dbs :: s.c.dbs[n].owner == role {
      var n :| n in s.c.dbs && s.c.dbs[n].owner == role;
      OwnersSettle(s, roles, job, drop, schedule, n);
      assert !OwnsNothingIn(role, s1.c.dbs[n]);
    } else {
      forall n <- s.c.dbs
        ensures n in s1.c.dbs
        ensures OwnsNothingIn(role, s1.c.dbs[n]) <==> LeavesNone(s.c.dbs, Gone(roles, job), job, role, n)
      {
        if role !in roles {
          NewRoleOwnsNothing(s, roles, job, role, n);
        }
        RowLeavesNone(s, roles, job, drop, schedule, role, n);
      }
    }
  }

  /** A role that was not there before and is given no database owns nothing anywhere. */
  lemma NewRoleOwnsNothing(s: Progress, roles: set<string>, job: Job, role: string, n: string)
    requires ReadyForTasks(s, roles, job) && OwnedBy(roles + ListedOwners(job.spec.databases), s.c)
    requires role !in roles && n in s.c.dbs && forall m <- s.c.dbs :: s.c.dbs[m].owner != role
    ensures OwnsNothingIn(role, s.c.dbs[n])
  {
    assert RowWellFormed(roles + ListedOwners(job.spec.databases), s.c.dbs[n]);
    forall db <- job.spec.databases ensures db.owner != role {
      assert HasOwner(s.c.dbs, db);
    }
  }

  /** With no database listed for a deleted role, only what no task connects to matters. */
  lemma ReleasableWhenOwnersStay(s: Progress, roles: set<string>, job: Job, role: string)
    requires ReadyForTasks(s, roles, job) && SameFlags(s.dbs, s.c) && OwnersStay(job.spec) && role in Gone(roles, job)
    ensures Releasable(s.c.dbs, s.c.templateObjects, roles, job, role) <==>
            && (forall o <- s.c.templateObjects :: s.c.templateObjects[o] != role)
            && (forall n <- s.c.dbs | !Reached(s.c.dbs, job, n) :: OwnsNoObject(role, s.c.dbs[n].inside))
  {
    forall n <- s.c.dbs | Reached(s.c.dbs, job, n) ensures LeavesNone(s.c.dbs, Gone(roles, job), job, role, n) {
      if n != job.p.systemDb {
        var db :| db in job.spec.databases && db.name == n;
        assert HasOwner(s.c.dbs, db);
      }
    }
  }

  // ----- owners there were before --------------------------------------------------------------

  /** Everything in the cluster belongs to somebody in `owners`. */
  predicate OwnedBy(owners: set<string>, c: Catalog) {
    RowsWellFormed(owners, c.dbs) && forall o <- c.templateObjects :: c.templateObjects[o] in owners
  }

  /** The commands give databases to nobody else. */
  predicate GivesOnlyTo(owners: set<string>, cmds: seq<Command>) {
    forall cmd <- cmds ::
      (cmd.AlterDatabaseOwner? ==> cmd.owner in owners) && (cmd.CreateDatabase? ==> cmd.owner in owners)
  }

  lemma {:induction false} ExecAllKeepsOwners(c: Catalog, cmds: seq<Command>, owners: set<string>)
    requires OwnedBy(owners, c) && GivesOnlyTo(owners, cmds)
    ensures OwnedBy(owners, ExecAll(c, cmds).0)
    decreases |cmds|
  {
    if cmds != [] {
      assert cmds[0] in cmds;
      match Exec(c, cmds[0]) {
        case Some(c1) =>
          ExecKeepsOwners(c, cmds[0], owners);
          ExecAllKeepsOwners(c1, cmds[1..], owners);
        case None => ExecAllKeepsOwners(c, cmds[1..], owners);
      }
    }
  }

  lemma ExecKeepsOwners(c: Catalog, cmd: Command, owners: set<string>)
    requires OwnedBy(owners, c) && Exec(c, cmd).Some?
    requires (cmd.AlterDatabaseOwner? ==> cmd.owner in owners) && (cmd.CreateDatabase? ==> cmd.owner in owners)
    ensures OwnedBy(owners, Exec(c, cmd).value)
  {
  }

  lemma {:induction false} RolesGiveNothing(roles: Verifiers, jwksRoles: set<string>, listed: seq<Role>, owners: set<string>)
    ensures GivesOnlyTo(owners, RoleCommands(roles, jwksRoles, listed))
    decreases |listed|
  {
    if listed != [] {
      RolesGiveNothing(roles, jwksRoles, listed[1..], owners);
    }
  }

  lemma {:induction false} RenamesGiveNothing(dbs: Dbs, ops: seq<DeltaOp>, owners: set<string>)
    requires RenameDelete(dbs, ops).Some?
    ensures GivesOnlyTo(owners, RenameDelete(dbs, ops).value.cmds)
    decreases |ops|
  {
    if ops != [] {
      RenamesGiveNothing(RenameDeleteOne(dbs, ops[0]).value.dbs, ops[1..], owners);
    }
  }

  lemma {:induction false} CreatesGiveToListed(dbs: Dbs, listed: seq<ListedDb>, owners: set<string>)
    requires ListedOwners(listed) <= owners
    ensures GivesOnlyTo(owners, CreateAlter(dbs, listed).cmds)
    decreases |listed|
  {
    if listed != [] {
      assert listed[0] in listed && listed[0].owner in ListedOwners(listed);
      assert forall db <- listed[1..] :: db in listed;
      CreatesGiveToListed(CreateAlterOne(dbs, listed[0]).dbs, listed[1..], owners);
    }
  }

  lemma {:induction false} AfterKeepsOwners(k: nat, c: Catalog, job: Job, schedule: seq<nat>, owners: set<string>)
    requires k <= 6 && OwnedBy(owners, c) && ListedOwners(job.spec.databases) <= owners
    ensures OwnedBy(owners, After(k, c, job, schedule).c)
  {
    if k > 0 {
      AfterKeepsOwners(k - 1, c, job, schedule, owners);
      var s := After(k - 1, c, job, schedule);
      if s.ok {
        StageKeepsOwners(k, s, c.roles, NeedsDrop(c, job), job, schedule, owners);
      }
    }
  }

  lemma StageKeepsOwners(k: nat, s: Progress, roles: Verifiers, drop: bool, job: Job, schedule: seq<nat>, owners: set<string>)
    requires k <= 6 && OwnedBy(owners, s.c) && ListedOwners(job.spec.databases) <= owners
    ensures OwnedBy(owners, Stage(k, s, roles, drop, job, schedule).c)
  {
    var ops := job.spec.deltaOperations;
    if k <= 3 {
      var c1 := Stage(k, s, roles, drop, job, schedule).c;
      forall n <- c1.dbs ensures RowWellFormed(owners, c1.dbs[n]) {
        assert RowWellFormed(owners, s.c.dbs[n]);
      }
    } else if k == 4 {
      RolesGiveNothing(roles, job.p.jwksRoles, job.spec.roles, owners);
      ExecAllKeepsOwners(s.c, RoleCommands(roles, job.p.jwksRoles, job.spec.roles), owners);
    } else if k == 5 && RenameDelete(s.dbs, ops).Some? {
      RenamesGiveNothing(s.dbs, ops, owners);
      ExecAllKeepsOwners(s.c, RenameDelete(s.dbs, ops).value.cmds, owners);
    } else if k == 6 {
      CreatesGiveToListed(s.dbs, job.spec.databases, owners);
      ExecAllKeepsOwners(s.c, CreateAlter(s.dbs, job.spec.databases).cmds, owners);
    }
  }

  // ----- the whole apply --------------------------------------------------------------------

  /** `c1` is what the spec asks for, coming from `c`. */
  ghost predicate Converged(c: Catalog, c1: Catalog, job: Job) {
    && (forall db <- job.spec.databases :: HasOwner(c1.dbs, db))
    && NewGranted(NamesAfter(ValidNames(c), job.spec.deltaOperations), job.spec.databases, c1)
    && RolesAsListed(c, c1, job)
    && (forall r <- DeletedRoles(job.spec.deltaOperations) :: r !in c1.roles)
    && NoInvalid(c1)
  }

  /** The spec does not ask for a role that it deletes, neither by itself nor as the owner of a database. */
  predicate Coherent(spec: Spec) {
    DeletedRoles(spec.deltaOperations) !! RoleNames(spec.roles) && OwnersStay(spec)
  }

  /** The tasks and what follows change no name, no flag, and drop exactly the deleted roles. */
  lemma LastStages(c: Catalog, job: Job, schedule: seq<nat>)
    requires After(9, c, job, schedule).ok
    ensures var s6, s7, s := After(6, c, job, schedule), After(7, c, job, schedule), After(9, c, job, schedule);
            && s6.ok && s7.ok && s7 == TasksStage(s6, c.roles.Keys, job, NeedsDrop(c, job), schedule)
            && s.c.dbs == s7.c.dbs && s.c.dbs.Keys == s6.c.dbs.Keys
            && (forall n <- s.c.dbs :: SameHeader(s6.c.dbs[n], s.c.dbs[n]))
            && s.c.roles == s6.c.roles - DeletedRoles(job.spec.deltaOperations)
            && (forall n <- s.c.roles :: n in s.c.privileged <==> n in s6.c.privileged)
            && s.c.record == (if NeedsDrop(c, job) then Some(job.timeline) else s7.c.record)
  {
    OkBefore(8, 9, c, job, schedule);
    OkBefore(7, 8, c, job, schedule);
    OkBefore(6, 7, c, job, schedule);
    var s6, s7, s8 := After(6, c, job, schedule), After(7, c, job, schedule), After(8, c, job, schedule);
    assert s7 == TasksStage(s6, c.roles.Keys, job, NeedsDrop(c, job), schedule);
    RunKeepsHeaders(s6.c.roles.Keys, WorldOf(s6, c.roles.Keys, job, NeedsDrop(c, job)), schedule);
    assert s8 == DropRolesStage(s7, job.spec.deltaOperations);
    DropRolesEffect(s7.c, job.spec.deltaOperations);
    assert After(9, c, job, schedule) == RecordStage(s8, job, NeedsDrop(c, job));
  }

  /** A successful apply leaves exactly the databases and roles that the spec describes. */
  lemma ApplyNames(c: Catalog, job: Job, schedule: seq<nat>)
    requires WellFormed(c) && After(9, c, job, schedule).ok
    ensures var c1 := After(9, c, job, schedule).c;
            c1.dbs.Keys == NamesAfter(ValidNames(c), job.spec.deltaOperations) + DbNames(job.spec.databases)
    ensures Regular(c, job) ==>
            var c1 := After(9, c, job, schedule).c;
            && NoInvalid(c1)
            && c1.roles.Keys == c.roles.Keys + {job.p.privilegedRole} + RoleNames(job.spec.roles)
                                - DeletedRoles(job.spec.deltaOperations)
  {
    LastStages(c, job, schedule);
    DatabasesApplied(c, job, schedule);
    if Regular(c, job) {
      OkBefore(5, 6, c, job, schedule);
      OkBefore(4, 5, c, job, schedule);
      RolesApplied(c, job, schedule);
      RenameApplied(c, job, schedule);
      RegularDatabasesApplied(c, job, schedule);
      var s6, c1 := After(6, c, job, schedule), After(9, c, job, schedule).c;
      forall n <- c1.dbs ensures !c1.dbs[n].invalid {
        assert SameHeader(s6.c.dbs[n], c1.dbs[n]);
      }
    }
  }

  lemma ListedOutcomes(c: Catalog, job: Job, schedule: seq<nat>)
    requires WellFormed(c) && Regular(c, job) && After(9, c, job, schedule).ok && Coherent(job.spec)
    ensures var c1 := After(9, c, job, schedule).c;
            && (forall db <- job.spec.databases :: HasOwner(c1.dbs, db))
            && NewGranted(NamesAfter(ValidNames(c), job.spec.deltaOperations), job.spec.databases, c1)
            && RolesAsListed(c, c1, job)
  {
    LastStages(c, job, schedule);
    OkBefore(5, 6, c, job, schedule);
    OkBefore(4, 5, c, job, schedule);
    RolesApplied(c, job, schedule);
    RenameApplied(c, job, schedule);
    RegularDatabasesApplied(c, job, schedule);
    var s6, c1 := After(6, c, job, schedule), After(9, c, job, schedule).c;
    forall db <- job.spec.databases ensures HasOwner(c1.dbs, db) {
      assert HasOwner(s6.c.dbs, db);
      UndeletedOwnerKept(s6, c.roles.Keys, job, NeedsDrop(c, job), schedule, db.name);
    }
    forall db <- job.spec.databases | db.name !in NamesAfter(ValidNames(c), job.spec.deltaOperations)
      ensures c1.dbs[db.name].granted
    {
      assert SameHeader(s6.c.dbs[db.name], c1.dbs[db.name]);
    }
    RolesStay(c, s6.c, c1, job);
  }

  lemma RolesStay(c: Catalog, c1: Catalog, c2: Catalog, job: Job)
    requires RolesAsListed(c, c1, job) && DeletedRoles(job.spec.deltaOperations) !! RoleNames(job.spec.roles)
    requires c2.roles == c1.roles - DeletedRoles(job.spec.deltaOperations)
    requires forall n <- c2.roles :: n in c2.privileged <==> n in c1.privileged
    ensures RolesAsListed(c, c2, job)
  {
    forall r <- job.spec.roles ensures r.name in c2.roles && c2.roles[r.name] == c1.roles[r.name] {
      assert r.name in RoleNames(job.spec.roles) && RoleSettled(c.roles, c1.roles, r);
    }
  }

  /**
   After a successful apply every listed database has its owner and every listed role its
   verifier, the new ones their privileges, and the deleted roles and invalid databases are gone,
   exactly when the spec does not ask for what it deletes.
   */
  lemma ConvergesExactlyWhen(c: Catalog, job: Job, schedule: seq<nat>)
    requires WellFormed(c) && Regular(c, job) && After(9, c, job, schedule).ok
    ensures Converged(c, After(9, c, job, schedule).c, job) <==> Coherent(job.spec)
  {
    var c1 := After(9, c, job, schedule).c;
    ApplyNames(c, job, schedule);
    AfterKeepsWellFormed(9, c, job, schedule);
    if Coherent(job.spec) {
      ListedOutcomes(c, job, schedule);
    } else if !OwnersStay(job.spec) {
      var db :| db in job.spec.databases && db.owner in DeletedRoles(job.spec.deltaOperations);
      if db.name in c1.dbs {
        assert RowWellFormed(c1.roles.Keys, c1.dbs[db.name]);
      }
      assert !HasOwner(c1.dbs, db);
    } else {
      var r :| r in job.spec.roles && r.name in DeletedRoles(job.spec.deltaOperations);
      assert !RoleSettled(c.roles, c1.roles, r);
    }
  }

  /** The system database is apart from what the spec manages, and its administrator is not deleted. */
  ghost predicate SystemApart(c: Catalog, job: Job) {
    && job.p.systemDb in NamesAfter(ValidNames(c), job.spec.deltaOperations) && job.p.systemDb !in DbNames(job.spec.databases)
    && "cloud_admin" in c.roles && "cloud_admin" !in DeletedRoles(job.spec.deltaOperations)
  }

  /** Nobody who is deleted is in line for the databases of somebody else who is. */
  ghost predicate Settles(c: Catalog, job: Job) {
    Settling(TaskRows(c, job), c.roles.Keys, job)
  }

  /** What it takes for a regular spec to be applied. */
  ghost predicate Appliable(c: Catalog, job: Job) {
    && ReachesTasks(c, job)
    && forall r <- DeletedRoles(job.spec.deltaOperations) * LiveRoles(c, job) ::
         Releasable(TaskRows(c, job), c.templateObjects, c.roles.Keys, job, r)
  }

  /** The tasks, if they are spawned at all, are scheduled until the driver has no more to wait for. */
  ghost predicate RunsToEnd(c: Catalog, job: Job, schedule: seq<nat>) {
    var s := After(6, c, job, schedule);
    s.ok ==> Over(RunSchedule(s.c.roles.Keys, WorldOf(s, c.roles.Keys, job, NeedsDrop(c, job)), schedule))
  }

  lemma Ready(c: Catalog, job: Job, schedule: seq<nat>)
    requires WellFormed(c) && Regular(c, job) && SystemApart(c, job) && After(6, c, job, schedule).ok
    ensures var s := After(6, c, job, schedule);
            ReadyForTasks(s, c.roles.Keys, job) && SameFlags(s.dbs, s.c) && s.c.roles.Keys == LiveRoles(c, job)
  {
    OkBefore(5, 6, c, job, schedule);
    OkBefore(4, 5, c, job, schedule);
    RolesApplied(c, job, schedule);
    RenameApplied(c, job, schedule);
    RegularDatabasesApplied(c, job, schedule);
    DatabasesApplied(c, job, schedule);
    AfterKeepsWellFormed(6, c, job, schedule);
    forall db <- job.spec.databases ensures db.name != job.p.systemDb {
      assert db.name in DbNames(job.spec.databases);
    }
  }

  /** The roles can be dropped after the tasks exactly when each was releasable before them. */
  lemma DeletedRolesGoExactlyWhen(s: Progress, roles: set<string>, job: Job, drop: bool, schedule: seq<nat>)
    requires ReadyForTasks(s, roles, job) && SameFlags(s.dbs, s.c) && Settling(s.c.dbs, roles, job)
    requires OwnedBy(roles + ListedOwners(job.spec.databases), s.c)
    requires Finished(RunSchedule(s.c.roles.Keys, WorldOf(s, roles, job, drop), schedule))
    ensures DropRolesStage(TasksStage(s, roles, job, drop, schedule), job.spec.deltaOperations).ok <==>
            forall r <- DeletedRoles(job.spec.deltaOperations) * s.c.roles.Keys ::
              Releasable(s.c.dbs, s.c.templateObjects, roles, job, r)
  {
    var s1 := TasksStage(s, roles, job, drop, schedule);
    DropRolesEffect(s1.c, job.spec.deltaOperations);
    forall r <- DeletedRoles(job.spec.deltaOperations)
      ensures OwnsNothing(r, s1.c.dbs, s1.c.templateObjects) <==>
              Releasable(s.c.dbs, s.c.templateObjects, roles, job, r)
    {
      RoleCanGoExactlyWhen(s, roles, job, drop, schedule, r);
    }
  }

  /** The two phases after `k` = 6. */
  lemma EightStages(c: Catalog, job: Job, schedule: seq<nat>, k: nat, s: Progress)
    requires k == 6 && s == After(k, c, job, schedule) && s.ok
    requires ReadyForTasks(s, c.roles.Keys, job) && SameFlags(s.dbs, s.c) && Settling(s.c.dbs, c.roles.Keys, job)
    requires OwnedBy(c.roles.Keys + ListedOwners(job.spec.databases), s.c)
    requires Finished(RunSchedule(s.c.roles.Keys, WorldOf(s, c.roles.Keys, job, NeedsDrop(c, job)), schedule))
    ensures After(k + 2, c, job, schedule).ok <==>
            forall r <- DeletedRoles(job.spec.deltaOperations) * s.c.roles.Keys ::
              Releasable(s.c.dbs, s.c.templateObjects, c.roles.Keys, job, r)
  {
    TwoMore(c, job, schedule, k);
    TasksSucceed(s, c.roles.Keys, job, NeedsDrop(c, job), schedule);
    DeletedRolesGoExactlyWhen(s, c.roles.Keys, job, NeedsDrop(c, job), schedule);
  }

  lemma TwoMore(c: Catalog, job: Job, schedule: seq<nat>, k: nat)
    requires k == 6 && After(k, c, job, schedule).ok
    ensures var s := After(k, c, job, schedule);
            var s1 := TasksStage(s, c.roles.Keys, job, NeedsDrop(c, job), schedule);
            After(k + 2, c, job, schedule) == if s1.ok then DropRolesStage(s1, job.spec.deltaOperations) else s1
  {
    var s1 := After(k + 1, c, job, schedule);
    assert s1 == TasksStage(After(k, c, job, schedule), c.roles.Keys, job, NeedsDrop(c, job), schedule);
  }

  lemma TasksSucceed(s: Progress, roles: set<string>, job: Job, drop: bool, schedule: seq<nat>)
    requires ReadyForTasks(s, roles, job)
    requires Finished(RunSchedule(s.c.roles.Keys, WorldOf(s, roles, job, drop), schedule))
    ensures TasksStage(s, roles, job, drop, schedule).ok
  {
    TasksAchieve(s, roles, job, drop, schedule);
  }

  lemma SixToNine(c: Catalog, job: Job, schedule: seq<nat>)
    requires WellFormed(c) && Regular(c, job) && SystemApart(c, job) && Settles(c, job)
    requires After(6, c, job, schedule).ok && RunsToEnd(c, job, schedule)
    ensures After(9, c, job, schedule).ok <==>
            forall r <- DeletedRoles(job.spec.deltaOperations) * LiveRoles(c, job) ::
              Releasable(TaskRows(c, job), c.templateObjects, c.roles.Keys, job, r)
  {
    var s := After(6, c, job, schedule);
    Ready(c, job, schedule);
    NoTaskFails(s, c.roles.Keys, job, NeedsDrop(c, job), schedule);
    OldOwners(c, job, schedule);
    RowsForTasks(c, job, schedule);
    EightStages(c, job, schedule, 6, s);
    RecordCannotFail(c, job, schedule, 8);
  }

  lemma OldOwners(c: Catalog, job: Job, schedule: seq<nat>)
    requires WellFormed(c)
    ensures OwnedBy(c.roles.Keys + ListedOwners(job.spec.databases), After(6, c, job, schedule).c)
  {
    var owners := c.roles.Keys + ListedOwners(job.spec.databases);
    forall n <- c.dbs ensures RowWellFormed(owners, c.dbs[n]) {
      assert RowWellFormed(c.roles.Keys, c.dbs[n]);
    }
    AfterKeepsOwners(6, c, job, schedule, owners);
  }

  lemma RecordCannotFail(c: Catalog, job: Job, schedule: seq<nat>, k: nat)
    requires k == 8
    ensures After(k + 1, c, job, schedule).ok <==> After(k, c, job, schedule).ok
  {
  }

  /**
   A regular spec is applied, under every schedule the driver waits for, exactly when it is
   appliable; unless a deleted role is in line for the databases of another.
   */
  lemma AppliesExactlyWhen(c: Catalog, job: Job, schedule: seq<nat>)
    requires WellFormed(c) && Regular(c, job) && SystemApart(c, job) && Settles(c, job) && RunsToEnd(c, job, schedule)
    ensures After(9, c, job, schedule).ok <==> Appliable(c, job)
  {
    ReachesTasksExactlyWhen(c, job, schedule);
    if After(6, c, job, schedule).ok {
      SixToNine(c, job, schedule);
    } else if After(9, c, job, schedule).ok {
      OkBefore(6, 9, c, job, schedule);
    }
  }

  /** Once converged, applying the spec without its delta operations again asks Postgres for nothing. */
  lemma ReapplyIsQuiet(c0: Catalog, c: Catalog, job: Job, p: Params, spec: Spec)
    requires Converged(c0, c, job) && spec == job.spec
    ensures InvalidNames(Snapshot(c)) == {}
    ensures RoleCommands(c.roles, p.jwksRoles, spec.roles) == [] <==>
            forall r <- spec.roles :: c.roles[r.name] == r.encryptedPassword
    ensures (forall r <- spec.roles :: r.encryptedPassword.None? || StartsWith(r.encryptedPassword.value, "SCRAM-SHA-256")) ==>
            RoleCommands(c.roles, p.jwksRoles, spec.roles) == []
    ensures CreateAlter(Snapshot(c), spec.databases).dbs == Snapshot(c)
    ensures CreateAlter(Snapshot(c), spec.databases).cmds == [] <==> forall db <- spec.databases :: !StartsWith(db.owner, "\"")
  {
    QuietRoles(c.roles, p.jwksRoles, spec.roles);
    ReapplyDatabases(c, spec.databases);
    forall r <- spec.roles | r.encryptedPassword.None? || StartsWith(r.encryptedPassword.value, "SCRAM-SHA-256")
      ensures c.roles[r.name] == r.encryptedPassword
    {
      assert RoleSettled(c0.roles, c.roles, r);
    }
  }

  lemma {:induction false} QuietRoles(roles: Verifiers, jwksRoles: set<string>, listed: seq<Role>)
    requires forall r <- listed :: r.name in roles
    ensures RoleCommands(roles, jwksRoles, listed) == [] <==> forall r <- listed :: roles[r.name] == r.encryptedPassword
    decreases |listed|
  {
    if listed != [] {
      assert forall r :: r in listed <==> r == listed[0] || r in listed[1..];
      QuietRoles(roles, jwksRoles, listed[1..]);
    }
  }

  // ----- objects that are lost -------------------------------------------------------------

  lemma {:induction false} NothingRenamed(dbs: Dbs, ops: seq<DeltaOp>)
    requires forall op <- ops :: op.action == "delete_role"
    ensures RenameDelete(dbs, ops) == Some(Phase(dbs, []))
    decreases |ops|
  {
    if ops != [] {
      assert ops[0].action == "delete_role";
      assert RenameDeleteOne(dbs, ops[0]) == Some(Phase(dbs, []));
      NothingRenamed(dbs, ops[1..]);
      var none: seq<Command> := [];
      assert none + none == none;
    }
  }

  /** A spec that changes nothing before the tasks, except what the snapshot says of the owner. */
  predicate Plain(c: Catalog, job: Job) {
    && NoInvalid(c) && job.p.privilegedRole in c.roles && job.spec.roles == [] && |job.spec.databases| == 1
    && (forall op <- job.spec.deltaOperations :: op.action == "delete_role")
    && var db := job.spec.databases[0];
    && db.name in c.dbs
    && ((c.dbs[db.name].owner == db.owner && db.owner in c.roles) || QuotedNameClash(c, db))
  }

  lemma FiveQuietStages(c: Catalog, job: Job, schedule: seq<nat>)
    requires Plain(c, job)
    ensures After(5, c, job, schedule) == Progress(c, Snapshot(c), true)
  {
    var dbs := Snapshot(c);
    assert After(0, c, job, schedule) == Progress(c, dbs, true);
    assert PreDrop(c, dbs, job.spec.deltaOperations).dbs == c.dbs;
    assert After(1, c, job, schedule) == Progress(c, dbs, true);
    assert After(2, c, job, schedule) == Progress(c, dbs, true);
    assert InvalidNames(dbs) == {} && dbs - {} == dbs && c.dbs - {} == c.dbs;
    assert After(3, c, job, schedule) == Progress(c, dbs, true);
    assert After(4, c, job, schedule) == Progress(c, dbs, true);
    NothingRenamed(dbs, job.spec.deltaOperations);
  }

  lemma QuietCreate(c: Catalog, db: ListedDb)
    requires db.name in c.dbs
    requires (c.dbs[db.name].owner == db.owner && db.owner in c.roles) || QuotedNameClash(c, db)
    ensures var dbs := Snapshot(c);
            CreateStage(Progress(c, dbs, true), [db]) == Progress(c, dbs[db.name := dbs[db.name].(owner := db.owner)], true)
  {
    var dbs := Snapshot(c);
    PgQuoteMarks(db.owner);
    var first := CreateAlterOne(dbs, db);
    assert [db][1..] == [] && first.cmds + [] == first.cmds;
    assert CreateAlter(dbs, [db]) == first;
    if first.cmds != [] {
      assert first.cmds == [AlterDatabaseOwner(db.name, db.owner)];
      assert c.dbs[db.name].owner == db.owner;
      assert c.dbs[db.name := c.dbs[db.name].(owner := db.owner)] == c.dbs;
      var rest: seq<Command> := first.cmds[1..];
      assert rest == [] && Exec(c, first.cmds[0]) == Some(c);
      assert ExecAll(c, first.cmds) == ExecAll(c, rest);
    }
  }

  lemma ToTheTasks(c: Catalog, job: Job, schedule: seq<nat>)
    requires Plain(c, job)
    ensures var s, db := After(6, c, job, schedule), job.spec.databases[0];
            s == Progress(c, Snapshot(c)[db.name := Snapshot(c)[db.name].(owner := db.owner)], true)
  {
    FiveQuietStages(c, job, schedule);
    assert job.spec.databases == [job.spec.databases[0]];
    QuietCreate(c, job.spec.databases[0]);
  }

  /** A step of task 0 that leaves the names of the databases alone. */
  lemma TaskStep(roles: set<string>, w: World, n: string, rest: seq<nat>)
    requires |w.tasks| > 0 && w.tasks[0].target == n && n in w.dbs
    ensures var (x, t) := LocalStep(roles, w.dbs[n].inside, w.tasks[0]);
            var w1 := WorldStep(roles, w, 0);
            && |w1.tasks| == |w.tasks| && w1.tasks[0] == t && t.target == n
            && n in w1.dbs && w1.dbs[n].inside == x
            && RunSchedule(roles, w, [0] + rest) == RunSchedule(roles, w1, rest)
  {
    assert ([0] + rest)[1..] == rest;
  }

  lemma CleanUpForNobody(roles: set<string>, w: World, n: string, role: string, to: string, obj: string)
    requires |w.tasks| > 0 && w.tasks[0].target == n && n in w.dbs && role in roles && to !in roles
    requires |w.tasks[0].todo| > 0 && w.tasks[0].todo[0] == [ReassignOwned(role, to), RevokeGrants(role), DropOwned(role)]
    requires obj in w.dbs[n].inside.objects && w.dbs[n].inside.objects[obj] == role
    ensures var w1 := RunSchedule(roles, w, [0, 0, 0]); n in w1.dbs && obj !in w1.dbs[n].inside.objects
  {
    var x := w.dbs[n].inside;
    TaskStep(roles, w, n, [0, 0]);
    var w1 := WorldStep(roles, w, 0);
    assert w1.dbs[n].inside == x && w1.tasks[0].todo[0] == [RevokeGrants(role), DropOwned(role)];
    TaskStep(roles, w1, n, [0]);
    var w2 := WorldStep(roles, w1, 0);
    assert w2.dbs[n].inside.objects == x.objects && w2.tasks[0].todo[0] == [DropOwned(role)];
    TaskStep(roles, w2, n, []);
    assert [0, 0, 0] == [0] + [0, 0] && [0, 0] == [0] + [0] && [0] == [0] + [];
  }

  /**
   An owner that does not exist passes for the present one when a role bears its quoted name;
   the task then reassigns to nobody, and drops what the deleted role owned.
   */
  lemma ObjectsLostToQuotedName(c: Catalog, job: Job, role: string, obj: string)
    requires Plain(c, job) && job.spec.deltaOperations == [DeltaOp("delete_role", role, None)]
    requires var db := job.spec.databases[0];
             && QuotedNameClash(c, db) && db.owner !in c.roles && !c.dbs[db.name].restrictConn
             && obj in c.dbs[db.name].inside.objects && c.dbs[db.name].inside.objects[obj] == role && role in c.roles
    ensures var db, c1 := job.spec.databases[0], After(7, c, job, [0, 0, 0]).c;
            db.name in c1.dbs && obj !in c1.dbs[db.name].inside.objects
  {
    var db, drop, s := job.spec.databases[0], NeedsDrop(c, job), After(6, c, job, [0, 0, 0]);
    ToTheTasks(c, job, [0, 0, 0]);
    FirstBatch(s, job, drop, role);
    CleanUpForNobody(c.roles.Keys, WorldOf(s, c.roles.Keys, job, drop), db.name, role, db.owner, obj);
    ThenTasks(c, job, [0, 0, 0], 6);
  }

  lemma ThenTasks(c: Catalog, job: Job, schedule: seq<nat>, k: nat)
    requires k == 6 && After(k, c, job, schedule).ok
    ensures After(k + 1, c, job, schedule) ==
            TasksStage(After(k, c, job, schedule), c.roles.Keys, job, NeedsDrop(c, job), schedule)
  {
  }

  lemma FirstBatch(s: Progress, job: Job, drop: bool, role: string)
    requires |job.spec.databases| == 1 && job.spec.deltaOperations == [DeltaOp("delete_role", role, None)]
    requires var db := job.spec.databases[0]; role in s.c.roles && role != db.owner && Accessible(s.dbs, UserDb(db))
    ensures var db, t := job.spec.databases[0], WorldOf(s, s.c.roles.Keys, job, drop).tasks[0];
            && t.target == db.name && !t.failed && |t.todo| > 0
            && t.todo[0] == [ReassignOwned(role, db.owner), RevokeGrants(role), DropOwned(role)]
  {
    var ops, db := job.spec.deltaOperations, UserDb(job.spec.databases[0]);
    SpawnedIsTaskOf(s.dbs, s.c.roles.Keys, job, drop, 0);
    assert ops[1..] == [] && Cleans(s.c.roles.Keys, db, ops[0]);
    assert ReferenceCommands(s.c.roles.Keys, db, ops)
        == [ReassignOwned(role, db.db.owner), RevokeGrants(role), DropOwned(role)];
  }
}
