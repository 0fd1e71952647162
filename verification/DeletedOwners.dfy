/**
 Why the success of an apply is not characterised for specs that put one deleted role in line
 for the databases of another: two tasks can pass those databases to the first, before or
 after what that one owns has been given away for good.
 */
module DeletedOwners {
  import opened Prelude
  import opened PgCatalog
  import opened SpecApply
  import opened PerDatabase
  import opened DatabaseOwners
  import opened ApplyStages
  import opened ApplyResults

  function Delete(role: string): DeltaOp {
    DeltaOp("delete_role", role, None)
  }

  /**
   The spec deletes `r` and `q` and lists one database, for `r`; `q` owns the database `e`.
   Neither owns any object.
   */
  ghost predicate Contested(c: Catalog, job: Job, r: string, q: string, e: string) {
    && WellFormed(c) && Plain(c, job) && job.spec.deltaOperations == [Delete(r), Delete(q)]
    && r in c.roles && q in c.roles && "cloud_admin" in c.roles && r != q && r != "cloud_admin" && q != "cloud_admin"
    && var db := job.spec.databases[0];
    && db.owner == r && c.dbs[db.name].owner == r && !c.dbs[db.name].restrictConn
    && PublicSettled(c.dbs[db.name].inside)
    && job.p.systemDb in c.dbs && job.p.systemDb != db.name
    && e in c.dbs && c.dbs[e].owner == q
    && (forall n <- c.dbs :: OwnsNoObject(r, c.dbs[n].inside) && OwnsNoObject(q, c.dbs[n].inside))
    && (forall o <- c.templateObjects :: c.templateObjects[o] != r && c.templateObjects[o] != q)
  }

  function Start(c: Catalog, job: Job): Progress {
    Progress(c, Snapshot(c), true)
  }

  function WorldAt(c: Catalog, job: Job): World {
    WorldOf(Start(c, job), c.roles.Keys, job, NeedsDrop(c, job))
  }

  lemma SixStagesKeep(c: Catalog, job: Job, r: string, q: string, e: string, schedule: seq<nat>)
    requires Contested(c, job, r, q, e)
    ensures After(6, c, job, schedule) == Start(c, job) && ReadyForTasks(Start(c, job), c.roles.Keys, job)
  {
    var db := job.spec.databases[0];
    ToTheTasks(c, job, schedule);
    assert Snapshot(c)[db.name := Snapshot(c)[db.name].(owner := db.owner)] == Snapshot(c);
    assert forall x <- job.spec.databases :: x == db;
    forall x <- DeletedRoles(job.spec.deltaOperations) ensures x == r || x == q {
    }
  }

  /** One task gives what `q` owns to `r`, the other what either owns to the administrator. */
  ghost predicate Racing(roles: set<string>, w: World, r: string, q: string) {
    && r in roles && q in roles && "cloud_admin" in roles && r != q && r != "cloud_admin" && q != "cloud_admin"
    && |w.tasks| == 2 && (forall i :: 0 <= i < 2 ==> w.tasks[i].target in w.dbs && GivesFirst(w.tasks[i]))
    && |w.tasks[0].todo| > 0 && w.tasks[0].todo[0] == [ReassignOwned(q, r), RevokeGrants(q), DropOwned(q)]
    && |w.tasks[1].todo| > 0
    && w.tasks[1].todo[0] == [ReassignOwned(r, "cloud_admin"), RevokeGrants(r), DropOwned(r),
                              ReassignOwned(q, "cloud_admin"), RevokeGrants(q), DropOwned(q)]
  }

  lemma TwoTasks(c: Catalog, job: Job, r: string, q: string, e: string)
    requires Contested(c, job, r, q, e)
    ensures Racing(c.roles.Keys, WorldAt(c, job), r, q)
  {
    var roles, ops, dbs, drop := c.roles.Keys, job.spec.deltaOperations, Snapshot(c), NeedsDrop(c, job);
    var db := UserDb(job.spec.databases[0]);
    SpawnedIsTaskOf(dbs, roles, job, drop, 0);
    SpawnedIsTaskOf(dbs, roles, job, drop, 1);
    SpawnedGivesFirst(dbs, roles, job, drop, db);
    SpawnedGivesFirst(dbs, roles, job, drop, SystemDb);
    TwoReferences(roles, db, r, q);
    TwoReferences(roles, SystemDb, r, q);
  }

  lemma TwoReferences(roles: set<string>, db: Db, r: string, q: string)
    requires r in roles && q in roles
    ensures ReferenceCommands(roles, db, [Delete(r), Delete(q)]) ==
            (if IsOwnedBy(db, r) then [] else [ReassignOwned(r, NewOwner(db)), RevokeGrants(r), DropOwned(r)])
            + (if IsOwnedBy(db, q) then [] else [ReassignOwned(q, NewOwner(db)), RevokeGrants(q), DropOwned(q)])
  {
    var ops := [Delete(r), Delete(q)];
    assert ops[1..] == [Delete(q)] && [Delete(q)][1..] == [];
    assert Cleans(roles, db, Delete(r)) <==> !IsOwnedBy(db, r);
    assert Cleans(roles, db, Delete(q)) <==> !IsOwnedBy(db, q);
    assert ReferenceCommands(roles, db, []) == [];
    var last := if IsOwnedBy(db, q) then [] else [ReassignOwned(q, NewOwner(db)), RevokeGrants(q), DropOwned(q)];
    assert last + [] == last;
    assert ReferenceCommands(roles, db, [Delete(q)]) == last;
  }

  /** The first command of a task, when it gives something away. */
  lemma GivingStep(roles: set<string>, w: World, i: nat, a: string, b: string)
    requires i < |w.tasks| && w.tasks[i].target in w.dbs && a in roles && b in roles
    requires var t := w.tasks[i]; t.todo != [] && t.todo[0] != [] && t.todo[0][0] == ReassignOwned(a, b) && GivesFirst(t)
    ensures var t, w1 := w.tasks[i], WorldStep(roles, w, i);
            && |w1.tasks| == |w.tasks| && w1.dbs.Keys == w.dbs.Keys
            && (forall n <- w.dbs :: w1.dbs[n].owner == if w.dbs[n].owner == a then b else w.dbs[n].owner)
            && w1.tasks[i].target == t.target && w1.tasks[i].todo != [] && w1.tasks[i].todo[0] == t.todo[0][1..]
            && GivesFirst(w1.tasks[i])
            && (forall k :: 0 <= k < |w.tasks| && k != i ==> w1.tasks[k] == w.tasks[k])
  {
    StepGivesFirst(roles, w.dbs[w.tasks[i].target].inside, w.tasks[i]);
  }

  lemma FirstBatchDecides(t: Task, role: string)
    requires GivesFirst(t) && (t.todo != [] ==> forall cmd <- t.todo[0] :: !(cmd.ReassignOwned? && cmd.role == role))
    ensures NeverGives(t, role)
  {
    forall j, k | 0 <= j < |t.todo| && 0 <= k < |t.todo[j]|
      ensures !(t.todo[j][k].ReassignOwned? && t.todo[j][k].role == role)
    {
      assert t.todo[j][k] in t.todo[j];
    }
  }

  lemma OneStep(roles: set<string>, w: World, i: nat, rest: seq<nat>)
    requires i < |w.tasks|
    ensures RunSchedule(roles, w, [i] + rest) == RunSchedule(roles, WorldStep(roles, w, i), rest)
  {
    assert ([i] + rest)[1..] == rest;
  }

  lemma TwoGifts(roles: set<string>, w: World, r: string, q: string, e: string)
    requires Racing(roles, w, r, q) && e in w.dbs && w.dbs[e].owner == q
    ensures |WorldStep(roles, w, 1).tasks| == 2
    ensures var w2 := WorldStep(roles, WorldStep(roles, w, 1), 0);
            && |w2.tasks| == 2 && e in w2.dbs && w2.dbs[e].owner == r
            && NeverGives(w2.tasks[0], r) && NeverGives(w2.tasks[1], r)
  {
    GivingStep(roles, w, 1, r, "cloud_admin");
    var w1 := WorldStep(roles, w, 1);
    GivingStep(roles, w1, 0, q, r);
    var w2 := WorldStep(roles, w1, 0);
    FirstBatchDecides(w2.tasks[0], r);
    FirstBatchDecides(w2.tasks[1], r);
  }

  /** What belongs to `r` is given away first, then `e` is given to `r`, and nobody takes it from there. */
  lemma LateGift(roles: set<string>, w: World, r: string, q: string, e: string) returns (schedule: seq<nat>)
    requires Racing(roles, w, r, q) && e in w.dbs && w.dbs[e].owner == q
    ensures var w1 := RunSchedule(roles, w, schedule); Finished(w1) && e in w1.dbs && w1.dbs[e].owner == r
  {
    TwoGifts(roles, w, r, q, e);
    var w1 := WorldStep(roles, w, 1);
    var w2 := WorldStep(roles, w1, 0);
    var rest := CanFinish(roles, w2);
    OwnerKept(roles, w2, rest, e);
    schedule := [1] + ([0] + rest);
    OneStep(roles, w, 1, [0] + rest);
    OneStep(roles, w1, 0, rest);
  }

  /** Only the second task has anything left to give, and everything of either goes to the administrator. */
  ghost predicate Decided(roles: set<string>, w: World, r: string, q: string) {
    && (forall i :: 0 <= i < |w.tasks| ==> w.tasks[i].target in w.dbs && GivesFirst(w.tasks[i]))
    && (forall i, a, b :: 0 <= i < |w.tasks| && Gives(roles, w.tasks[i], a, b) ==> (a == r || a == q) && b == "cloud_admin")
    && GivenTo(roles, w, r, "cloud_admin") && GivenTo(roles, w, q, "cloud_admin")
    && r != "cloud_admin" && q != "cloud_admin"
  }

  lemma GiftDecides(roles: set<string>, w: World, r: string, q: string)
    requires Racing(roles, w, r, q)
    ensures Decided(roles, WorldStep(roles, w, 0), r, q)
  {
    GivingStep(roles, w, 0, q, r);
    var w1 := WorldStep(roles, w, 0);
    forall i, a, b | 0 <= i < |w1.tasks|
      ensures Gives(roles, w1.tasks[i], a, b) <==> i == 1 && (a == r || a == q) && b == "cloud_admin"
    {
      if i == 0 {
        SpentGives(roles, w1.tasks[0], q, a, b);
      } else {
        AdminGives(roles, w1.tasks[1], r, q, a, b);
      }
    }
  }

  lemma SpentGives(roles: set<string>, t: Task, q: string, a: string, b: string)
    requires |t.todo| > 0 && t.todo[0] == [RevokeGrants(q), DropOwned(q)]
    ensures !Gives(roles, t, a, b)
  {
  }

  lemma AdminGives(roles: set<string>, t: Task, r: string, q: string, a: string, b: string)
    requires |t.todo| > 0 && r in roles && q in roles && "cloud_admin" in roles
    requires t.todo[0] == [ReassignOwned(r, "cloud_admin"), RevokeGrants(r), DropOwned(r),
                           ReassignOwned(q, "cloud_admin"), RevokeGrants(q), DropOwned(q)]
    ensures Gives(roles, t, a, b) <==> (a == r || a == q) && b == "cloud_admin"
  {
    assert t.todo[0][0] in t.todo[0] && t.todo[0][3] in t.todo[0];
  }

  lemma DecidedEnds(roles: set<string>, w: World, r: string, q: string, schedule: seq<nat>, n: string)
    requires Decided(roles, w, r, q) && n in w.dbs && Finished(RunSchedule(roles, w, schedule))
    ensures var w1 := RunSchedule(roles, w, schedule); n in w1.dbs && w1.dbs[n].owner != r && w1.dbs[n].owner != q
  {
    OwnerAfter(roles, w, schedule, n);
  }

  /** `e` is given to `r` first, and then everything of either to the administrator. */
  lemma EarlyGift(roles: set<string>, w: World, r: string, q: string) returns (schedule: seq<nat>)
    requires Racing(roles, w, r, q)
    ensures var w1 := RunSchedule(roles, w, schedule);
            Finished(w1) && forall n <- w1.dbs :: w1.dbs[n].owner != r && w1.dbs[n].owner != q
  {
    GiftDecides(roles, w, r, q);
    var w1 := WorldStep(roles, w, 0);
    var rest := CanFinish(roles, w1);
    RunKeepsHeaders(roles, w1, rest);
    forall n <- RunSchedule(roles, w1, rest).dbs
      ensures RunSchedule(roles, w1, rest).dbs[n].owner != r && RunSchedule(roles, w1, rest).dbs[n].owner != q
    {
      DecidedEnds(roles, w1, r, q, rest, n);
    }
    schedule := [0] + rest;
    OneStep(roles, w, 0, rest);
  }

  lemma CleanedUpKeeps(x: Inside, gone: set<string>, db: Db, drop: bool)
    requires (forall o <- x.objects :: x.objects[o] !in gone) && (db.UserDb? ==> PublicSettled(x))
    ensures CleanedUp(x, gone, db, drop).objects == x.objects
  {
    assert Reowned(x.objects, gone, NewOwner(db)) == x.objects;
  }

  lemma ExpectedObjects(c: Catalog, job: Job, r: string, q: string, e: string, db: Db)
    requires Contested(c, job, r, q, e) && HasTask(job.spec, db)
    ensures Target(job.p, db) in c.dbs
    ensures Expected(Start(c, job), c.roles.Keys, job, NeedsDrop(c, job), db).objects == c.dbs[Target(job.p, db)].inside.objects
  {
    var gone := CleanedRoles(c.roles.Keys, db, job.spec.deltaOperations);
    assert gone <= {r, q};
    assert db.UserDb? ==> db.db == job.spec.databases[0];
    CleanedUpKeeps(c.dbs[Target(job.p, db)].inside, gone, db, NeedsDrop(c, job));
  }

  lemma ObjectsStay(c: Catalog, job: Job, r: string, q: string, e: string, schedule: seq<nat>, n: string)
    requires Contested(c, job, r, q, e) && ReadyForTasks(Start(c, job), c.roles.Keys, job) && n in c.dbs
    requires Finished(RunSchedule(c.roles.Keys, WorldAt(c, job), schedule))
    ensures var w := RunSchedule(c.roles.Keys, WorldAt(c, job), schedule);
            n in w.dbs && OwnsNoObject(r, w.dbs[n].inside) && OwnsNoObject(q, w.dbs[n].inside)
  {
    TasksAchieve(Start(c, job), c.roles.Keys, job, NeedsDrop(c, job), schedule);
    if db :| HasTask(job.spec, db) && Target(job.p, db) == n {
      ExpectedObjects(c, job, r, q, e, db);
    }
  }

  /** The same spec on the same catalog succeeds under one schedule and fails under another. */
  lemma SuccessIsARace(c: Catalog, job: Job, r: string, q: string, e: string) returns (early: seq<nat>, late: seq<nat>)
    requires Contested(c, job, r, q, e)
    ensures RunsToEnd(c, job, early) && After(9, c, job, early).ok
    ensures RunsToEnd(c, job, late) && !After(9, c, job, late).ok
  {
    TwoTasks(c, job, r, q, e);
    early := EarlyGift(c.roles.Keys, WorldAt(c, job), r, q);
    late := LateGift(c.roles.Keys, WorldAt(c, job), r, q, e);
    SixStagesKeep(c, job, r, q, e, early);
    SixStagesKeep(c, job, r, q, e, late);
    EarlySucceeds(c, job, r, q, e, early);
    LateFails(c, job, r, q, e, late);
  }

  lemma EarlySucceeds(c: Catalog, job: Job, r: string, q: string, e: string, schedule: seq<nat>)
    requires Contested(c, job, r, q, e) && After(6, c, job, schedule) == Start(c, job)
    requires ReadyForTasks(Start(c, job), c.roles.Keys, job)
    requires var w := RunSchedule(c.roles.Keys, WorldAt(c, job), schedule);
             Finished(w) && forall n <- w.dbs :: w.dbs[n].owner != r && w.dbs[n].owner != q
    ensures After(9, c, job, schedule).ok
  {
    TwoMore(c, job, schedule, 6);
    TasksSucceed(Start(c, job), c.roles.Keys, job, NeedsDrop(c, job), schedule);
    BothCanGo(c, job, r, q, e, schedule);
    RecordCannotFail(c, job, schedule, 8);
  }

  lemma BothCanGo(c: Catalog, job: Job, r: string, q: string, e: string, schedule: seq<nat>)
    requires Contested(c, job, r, q, e) && ReadyForTasks(Start(c, job), c.roles.Keys, job)
    requires var w := RunSchedule(c.roles.Keys, WorldAt(c, job), schedule);
             Finished(w) && forall n <- w.dbs :: w.dbs[n].owner != r && w.dbs[n].owner != q
    ensures var s1 := TasksStage(Start(c, job), c.roles.Keys, job, NeedsDrop(c, job), schedule);
            DropRolesStage(s1, job.spec.deltaOperations).ok
  {
    var s1 := TasksStage(Start(c, job), c.roles.Keys, job, NeedsDrop(c, job), schedule);
    RunKeepsHeaders(c.roles.Keys, WorldAt(c, job), schedule);
    forall n <- s1.c.dbs ensures OwnsNothingIn(r, s1.c.dbs[n]) && OwnsNothingIn(q, s1.c.dbs[n]) {
      ObjectsStay(c, job, r, q, e, schedule, n);
    }
    DropRolesEffect(s1.c, job.spec.deltaOperations);
  }

  lemma LateFails(c: Catalog, job: Job, r: string, q: string, e: string, schedule: seq<nat>)
    requires Contested(c, job, r, q, e) && After(6, c, job, schedule) == Start(c, job)
    requires ReadyForTasks(Start(c, job), c.roles.Keys, job)
    requires var w := RunSchedule(c.roles.Keys, WorldAt(c, job), schedule);
             Finished(w) && e in w.dbs && w.dbs[e].owner == r
    ensures !After(9, c, job, schedule).ok
  {
    var s1 := TasksStage(Start(c, job), c.roles.Keys, job, NeedsDrop(c, job), schedule);
    TwoMore(c, job, schedule, 6);
    TasksSucceed(Start(c, job), c.roles.Keys, job, NeedsDrop(c, job), schedule);
    DropRolesEffect(s1.c, job.spec.deltaOperations);
    assert Delete(r) in job.spec.deltaOperations && r in DeletedRoles(job.spec.deltaOperations);
    assert !OwnsNothingIn(r, s1.c.dbs[e]);
    RecordCannotFail(c, job, schedule, 8);
  }
}
