/**
 Dropping inherited subscriptions once per branch.

 The spec flag `drop_subscriptions_before_start` survives restarts, so the fact that the
 drop happened is recorded in `neon.drop_subscriptions_done` under the timeline id.  This
 module says what one apply that nobody interferes with does to subscriptions and record;
 `SubscriptionHistory` is about applies that overlap with each other and with users.
 */
module DropSubscriptions {
  import opened Prelude
  import opened PgCatalog
  import opened SpecApply
  import opened PerDatabase
  import opened DatabaseOwners
  import opened ApplyStages
  import opened ApplyResults

  // ----- subscriptions under the tasks -----------------------------------------------------

  predicate HasDrop(t: Task) {
    exists j, k :: 0 <= j < |t.todo| && 0 <= k < |t.todo[j]| && t.todo[j][k].DropSubscriptions?
  }

  lemma StepSubs(roles: set<string>, x: Inside, t: Task)
    ensures var (x1, t1) := LocalStep(roles, x, t);
            && x1.subs <= x.subs && t1.target == t.target
            && (!HasDrop(t) ==> x1.subs == x.subs && !HasDrop(t1) && !HasDrop(Refused(t)))
            && (HasDrop(t) ==> x1.subs == {} || t1.failed || HasDrop(t1))
  {
    var t1 := LocalStep(roles, x, t).1;
    if t.todo != [] && t.todo[0] == [] {
      assert forall j :: 0 <= j < |t1.todo| ==> t1.todo[j] == t.todo[j + 1];
      if !t.failed && HasDrop(t) {
        var j, k :| 0 <= j < |t.todo| && 0 <= k < |t.todo[j]| && t.todo[j][k].DropSubscriptions?;
        assert t1.todo[j - 1][k].DropSubscriptions?;
      }
    } else if t.todo != [] {
      assert forall j :: 0 < j < |t1.todo| ==> t1.todo[j] == t.todo[j];
      assert t1.todo[0] == t.todo[0][1..];
      if HasDrop(t) && !t.todo[0][0].DropSubscriptions? {
        var j, k :| 0 <= j < |t.todo| && 0 <= k < |t.todo[j]| && t.todo[j][k].DropSubscriptions?;
        assert t1.todo[j][if j == 0 then k - 1 else k].DropSubscriptions?;
      }
    }
  }

  /** Task `k` has done its drop, or failed, or still has it to do. */
  ghost predicate Dropping(w: World, k: nat, n: string) {
    && k < |w.tasks| && w.tasks[k].target == n && n in w.dbs
    && (w.dbs[n].inside.subs == {} || w.tasks[k].failed || HasDrop(w.tasks[k]))
  }

  lemma StepKeepsDropping(roles: set<string>, w: World, i: nat, k: nat, n: string)
    requires Dropping(w, k, n) && i < |w.tasks|
    ensures Dropping(WorldStep(roles, w, i), k, n)
  {
    var t := w.tasks[i];
    if t.target in w.dbs {
      StepSubs(roles, w.dbs[t.target].inside, t);
    }
  }

  lemma {:induction false} RunKeepsDropping(roles: set<string>, w: World, schedule: seq<nat>, k: nat, n: string)
    requires Dropping(w, k, n)
    ensures Dropping(RunSchedule(roles, w, schedule), k, n)
    decreases |schedule|
  {
    if schedule != [] {
      if schedule[0] < |w.tasks| {
        StepKeepsDropping(roles, w, schedule[0], k, n);
        RunKeepsDropping(roles, WorldStep(roles, w, schedule[0]), schedule[1..], k, n);
      } else {
        RunKeepsDropping(roles, w, schedule[1..], k, n);
      }
    }
  }

  /** Subscriptions only ever go, and if no task has a drop to do they stay. */
  lemma {:induction false} RunSubs(roles: set<string>, w: World, schedule: seq<nat>, n: string)
    requires n in w.dbs
    ensures var w1 := RunSchedule(roles, w, schedule);
            && n in w1.dbs && w1.dbs[n].inside.subs <= w.dbs[n].inside.subs
            && ((forall i :: 0 <= i < |w.tasks| ==> !HasDrop(w.tasks[i])) ==> w1.dbs[n].inside.subs == w.dbs[n].inside.subs)
    decreases |schedule|
  {
    if schedule != [] {
      var i := schedule[0];
      if i < |w.tasks| {
        var t := w.tasks[i];
        StepSubs(roles, if t.target in w.dbs then w.dbs[t.target].inside else NO_INSIDE, t);
        RunSubs(roles, WorldStep(roles, w, i), schedule[1..], n);
      } else {
        RunSubs(roles, w, schedule[1..], n);
      }
    }
  }

  lemma {:induction false} ReferencesDropNothing(roles: set<string>, db: Db, ops: seq<DeltaOp>)
    ensures forall k :: 0 <= k < |ReferenceCommands(roles, db, ops)| ==> !ReferenceCommands(roles, db, ops)[k].DropSubscriptions?
    decreases |ops|
  {
    if ops != [] {
      ReferencesDropNothing(roles, db, ops[1..]);
    }
  }

  /** The drop is among the commands of a task exactly when it is scheduled and the database is a user's and accessible. */
  lemma SpawnedHasDrop(dbs: Dbs, roles: set<string>, job: Job, drop: bool, db: Db)
    ensures HasDrop(TaskOf(dbs, roles, job, drop, db)) <==> drop && db.UserDb? && Accessible(dbs, db)
  {
    var t := TaskOf(dbs, roles, job, drop, db);
    ReferencesDropNothing(roles, db, job.spec.deltaOperations);
    if drop && db.UserDb? && Accessible(dbs, db) {
      assert t.todo[2] == [DropSubscriptions] && t.todo[2][0].DropSubscriptions?;
    }
  }

  // ----- subscriptions and record under an apply ---------------------------------------------

  /** No listed database that accepts connections holds a subscription. */
  predicate SubscriptionsGone(c: Catalog, listed: seq<ListedDb>) {
    forall db <- listed | db.name in c.dbs && !c.dbs[db.name].restrictConn && !c.dbs[db.name].invalid ::
      c.dbs[db.name].inside.subs == {}
  }

  /** Whatever the spec: if the drop was scheduled and no task failed, it happened everywhere. */
  lemma SucceededMeansGone(s: Progress, roles: set<string>, job: Job, schedule: seq<nat>)
    requires SameFlags(s.dbs, s.c) && TasksStage(s, roles, job, true, schedule).ok
    ensures SubscriptionsGone(TasksStage(s, roles, job, true, schedule).c, job.spec.databases)
  {
    var live, w := s.c.roles.Keys, WorldOf(s, roles, job, true);
    var w1 := RunSchedule(live, w, schedule);
    RunKeepsHeaders(live, w, schedule);
    forall db <- job.spec.databases | db.name in w1.dbs && !w1.dbs[db.name].restrictConn && !w1.dbs[db.name].invalid
      ensures w1.dbs[db.name].inside.subs == {}
    {
      assert SameHeader(s.c.dbs[db.name], w1.dbs[db.name]);
      var i := TaskOfIsSpawned(s.dbs, roles, job, true, UserDb(db));
      SpawnedHasDrop(s.dbs, roles, job, true, UserDb(db));
      RunKeepsDropping(live, w, schedule, i, db.name);
      assert w1.tasks[i] in w1.tasks;
    }
  }

  /** Neither the record nor the name of a database is changed. */
  predicate Tame(cmds: seq<Command>) {
    forall cmd <- cmds :: !cmd.RecordDrop? && !cmd.RenameDatabase?
  }

  lemma {:induction false} RoleCommandsAreTame(roles: Verifiers, jwksRoles: set<string>, listed: seq<Role>)
    ensures Tame(RoleCommands(roles, jwksRoles, listed))
    decreases |listed|
  {
    if listed != [] {
      RoleCommandsAreTame(roles, jwksRoles, listed[1..]);
    }
  }

  lemma {:induction false} RenamesWriteNoRecord(dbs: Dbs, ops: seq<DeltaOp>)
    requires RenameDelete(dbs, ops).Some?
    ensures !WritesRecord(RenameDelete(dbs, ops).value.cmds)
    decreases |ops|
  {
    if ops != [] {
      RenamesWriteNoRecord(RenameDeleteOne(dbs, ops[0]).value.dbs, ops[1..]);
    }
  }

  lemma {:induction false} CreatesAreTame(dbs: Dbs, listed: seq<ListedDb>)
    ensures Tame(CreateAlter(dbs, listed).cmds)
    decreases |listed|
  {
    if listed != [] {
      CreatesAreTame(CreateAlterOne(dbs, listed[0]).dbs, listed[1..]);
    }
  }

  lemma {:induction false} RoleDropsAreTame(ops: seq<DeltaOp>)
    ensures Tame(DropRoleCommands(ops))
    decreases |ops|
  {
    if ops != [] {
      RoleDropsAreTame(ops[1..]);
    }
  }

  lemma TasksSubs(s: Progress, roles: set<string>, job: Job, drop: bool, schedule: seq<nat>)
    ensures var s1 := TasksStage(s, roles, job, drop, schedule);
            && s1.c.record == s.c.record && AllSubs(s1.c) <= AllSubs(s.c)
            && (!drop ==> AllSubs(s1.c) == AllSubs(s.c))
  {
    var live, w := s.c.roles.Keys, WorldOf(s, roles, job, drop);
    RunKeepsHeaders(live, w, schedule);
    forall i: nat | i < |w.tasks| ensures HasDrop(w.tasks[i]) ==> drop {
      SpawnedIsTaskOf(s.dbs, roles, job, drop, i);
      SpawnedHasDrop(s.dbs, roles, job, drop, SpawnedFor(job, i));
    }
    forall n <- s.c.dbs
      ensures var w1 := RunSchedule(live, w, schedule);
              && w1.dbs[n].inside.subs <= s.c.dbs[n].inside.subs
              && (!drop ==> w1.dbs[n].inside.subs == s.c.dbs[n].inside.subs)
    {
      RunSubs(live, w, schedule, n);
    }
  }

  lemma DropInvalidSubs(s: Progress)
    ensures AllSubs(DropInvalidStage(s).c) == AllSubs(s.c)
  {
    var c1 := DropInvalidStage(s).c;
    forall sub <- AllSubs(s.c) ensures sub in AllSubs(c1) {
      var n :| n in s.c.dbs && sub in s.c.dbs[n].inside.subs;
      assert n in c1.dbs && c1.dbs[n] == s.c.dbs[n];
    }
  }

  lemma StageSubs(k: nat, s: Progress, roles: Verifiers, drop: bool, job: Job, schedule: seq<nat>)
    ensures var s1 := Stage(k, s, roles, drop, job, schedule);
            && AllSubs(s1.c) <= AllSubs(s.c)
            && (k != 1 && !(k == 7 && drop) ==> AllSubs(s1.c) == AllSubs(s.c))
            && s1.c.record == (if k == 9 && drop then Some(job.timeline) else s.c.record)
  {
    if k == 3 {
      DropInvalidSubs(s);
    } else if k == 4 {
      RoleCommandsAreTame(roles, job.p.jwksRoles, job.spec.roles);
      ExecAllKeepsSubs(s.c, RoleCommands(roles, job.p.jwksRoles, job.spec.roles));
    } else if k == 5 && RenameDelete(s.dbs, job.spec.deltaOperations).Some? {
      RenamesWriteNoRecord(s.dbs, job.spec.deltaOperations);
      ExecAllKeepsSubs(s.c, RenameDelete(s.dbs, job.spec.deltaOperations).value.cmds);
    } else if k == 6 {
      CreatesAreTame(s.dbs, job.spec.databases);
      ExecAllKeepsSubs(s.c, CreateAlter(s.dbs, job.spec.databases).cmds);
    } else if k == 7 {
      TasksSubs(s, roles.Keys, job, drop, schedule);
    } else if k == 8 {
      RoleDropsAreTame(job.spec.deltaOperations);
      ExecAllKeepsSubs(s.c, DropRoleCommands(job.spec.deltaOperations));
    }
  }

  /**
   However far an apply gets, it makes no subscription and writes the record last if at all;
   without the drop it loses none but those of the databases to be deleted.
   */
  lemma {:induction false} AfterSubs(k: nat, c: Catalog, job: Job, schedule: seq<nat>)
    ensures var s := After(k, c, job, schedule);
            && AllSubs(s.c) <= AllSubs(c)
            && (k > 0 && !NeedsDrop(c, job) ==> AllSubs(s.c) == AllSubs(PreDrop(c, Snapshot(c), job.spec.deltaOperations)))
            && s.c.record == (if k >= 9 && s.ok && NeedsDrop(c, job) then Some(job.timeline) else c.record)
  {
    if k > 0 {
      AfterSubs(k - 1, c, job, schedule);
      StageSubs(k, After(k - 1, c, job, schedule), c.roles, NeedsDrop(c, job), job, schedule);
      assert k > 9 ==> After(k, c, job, schedule) == After(k - 1, c, job, schedule);
    }
  }

  lemma {:induction false} NothingAfterTheLast(k: nat, c: Catalog, job: Job, schedule: seq<nat>)
    requires k >= 9
    ensures After(k, c, job, schedule) == After(9, c, job, schedule)
  {
    if k > 9 {
      NothingAfterTheLast(k - 1, c, job, schedule);
    }
  }

  /** An apply writes the record only after every accessible listed database has lost its subscriptions. */
  lemma RecordMeansGone(k: nat, c: Catalog, job: Job, schedule: seq<nat>)
    requires After(k, c, job, schedule).c.record != c.record
    ensures k >= 9 && job.spec.dropSubscriptionsBeforeStart && After(k, c, job, schedule).ok
    ensures After(k, c, job, schedule).c.record == Some(job.timeline)
    ensures SubscriptionsGone(After(k, c, job, schedule).c, job.spec.databases)
  {
    AfterSubs(k, c, job, schedule);
    NothingAfterTheLast(k, c, job, schedule);
    LastStages(c, job, schedule);
    DatabasesApplied(c, job, schedule);
    SucceededMeansGone(After(6, c, job, schedule), c.roles.Keys, job, schedule);
  }

  // ----- what survives ----------------------------------------------------------------------------

  /** No operation of the spec deletes or renames the database. */
  predicate Spares(ops: seq<DeltaOp>, db: string) {
    forall op <- ops :: op.name == db ==> op.action != "delete_db" && op.action != "rename_db"
  }

  /** A database that holds subscriptions cannot be dropped or replaced, only renamed. */
  lemma {:induction false} ExecAllKeepsDb(c: Catalog, cmds: seq<Command>, db: string)
    requires db in c.dbs && c.dbs[db].inside.subs != {}
    requires forall cmd <- cmds :: cmd.RenameDatabase? ==> cmd.name != db
    ensures var c1 := ExecAll(c, cmds).0; db in c1.dbs && c1.dbs[db].inside == c.dbs[db].inside
    decreases |cmds|
  {
    if cmds != [] {
      assert cmds[0] in cmds;
      match Exec(c, cmds[0]) {
        case Some(c1) => ExecAllKeepsDb(c1, cmds[1..], db);
        case None => ExecAllKeepsDb(c, cmds[1..], db);
      }
    }
  }

  lemma {:induction false} RenamesSpare(dbs: Dbs, ops: seq<DeltaOp>, db: string)
    requires RenameDelete(dbs, ops).Some? && Spares(ops, db)
    ensures forall cmd <- RenameDelete(dbs, ops).value.cmds :: cmd.RenameDatabase? ==> cmd.name != db
    decreases |ops|
  {
    if ops != [] {
      assert ops[0] in ops;
      RenamesSpare(RenameDeleteOne(dbs, ops[0]).value.dbs, ops[1..], db);
    }
  }

  lemma StageKeepsDb(k: nat, s: Progress, roles: Verifiers, job: Job, schedule: seq<nat>, db: string)
    requires db in s.c.dbs && s.c.dbs[db].inside.subs != {} && Spares(job.spec.deltaOperations, db)
    ensures var c1 := Stage(k, s, roles, false, job, schedule).c;
            db in c1.dbs && c1.dbs[db].inside.subs == s.c.dbs[db].inside.subs
  {
    if k == 4 {
      RoleCommandsAreTame(roles, job.p.jwksRoles, job.spec.roles);
      ExecAllKeepsDb(s.c, RoleCommands(roles, job.p.jwksRoles, job.spec.roles), db);
    } else if k == 5 && RenameDelete(s.dbs, job.spec.deltaOperations).Some? {
      RenamesSpare(s.dbs, job.spec.deltaOperations, db);
      ExecAllKeepsDb(s.c, RenameDelete(s.dbs, job.spec.deltaOperations).value.cmds, db);
    } else if k == 6 {
      CreatesAreTame(s.dbs, job.spec.databases);
      ExecAllKeepsDb(s.c, CreateAlter(s.dbs, job.spec.databases).cmds, db);
    } else if k == 7 {
      TasksKeepSubs(s, roles.Keys, job, schedule, db);
    } else if k == 8 {
      RoleDropsAreTame(job.spec.deltaOperations);
      ExecAllKeepsDb(s.c, DropRoleCommands(job.spec.deltaOperations), db);
    }
  }

  lemma TasksKeepSubs(s: Progress, roles: set<string>, job: Job, schedule: seq<nat>, db: string)
    requires db in s.c.dbs
    ensures var c1 := TasksStage(s, roles, job, false, schedule).c;
            db in c1.dbs && c1.dbs[db].inside.subs == s.c.dbs[db].inside.subs
  {
    var w := WorldOf(s, roles, job, false);
    forall i: nat | i < |w.tasks| ensures !HasDrop(w.tasks[i]) {
      SpawnedIsTaskOf(s.dbs, roles, job, false, i);
      SpawnedHasDrop(s.dbs, roles, job, false, SpawnedFor(job, i));
    }
    RunSubs(s.c.roles.Keys, w, schedule, db);
  }

  /** An apply without the drop leaves the subscriptions of a database it does not delete or rename. */
  lemma {:induction false} AfterKeepsDb(k: nat, c: Catalog, job: Job, schedule: seq<nat>, db: string)
    requires db in c.dbs && c.dbs[db].inside.subs != {} && Spares(job.spec.deltaOperations, db) && !NeedsDrop(c, job)
    ensures var c1 := After(k, c, job, schedule).c; db in c1.dbs && c1.dbs[db].inside.subs == c.dbs[db].inside.subs
  {
    if k > 0 {
      AfterKeepsDb(k - 1, c, job, schedule, db);
      StageKeepsDb(k, After(k - 1, c, job, schedule), c.roles, job, schedule, db);
    }
  }
}
