/**
 `apply_spec_sql` as the source writes it: the snapshot object, the phases that rewrite it
 in place, and the driver that runs them in order against Postgres.  Every method is proved
 against the function of `ApplyStages` for its phase, so what is proved of those functions,
 under every schedule and cut off after every phase, is proved of these bodies.
 */
module ApplySpec {
  import opened Prelude
  import opened PgText
  import opened PgCatalog
  import opened SpecApply
  import opened PerDatabase
  import opened DatabaseOwners
  import opened ApplyStages
  import opened ApplyResults
  import DropSubscriptions

  // ----- the phases, one element at a time --------------------------------------------

  lemma {:induction false} RoleCommandsSnoc(roles: Verifiers, jwksRoles: set<string>, a: seq<Role>, r: Role)
    ensures RoleCommands(roles, jwksRoles, a + [r]) == RoleCommands(roles, jwksRoles, a) + RoleCommand(roles, jwksRoles, r)
    decreases |a|
  {
    if a == [] {
      assert [r][1..] == [] && a + [r] == [r];
    } else {
      assert (a + [r])[1..] == a[1..] + [r];
      RoleCommandsSnoc(roles, jwksRoles, a[1..], r);
    }
  }

  function Then(p: Phase, q: Phase): Phase {
    Phase(q.dbs, p.cmds + q.cmds)
  }

  lemma {:induction false} CreateAlterSnoc(dbs: Dbs, a: seq<ListedDb>, db: ListedDb)
    ensures var p := CreateAlter(dbs, a); CreateAlter(dbs, a + [db]) == Then(p, CreateAlterOne(p.dbs, db))
    decreases |a|
  {
    if a == [] {
      assert [db][1..] == [] && a + [db] == [db];
    } else {
      assert (a + [db])[1..] == a[1..] + [db];
      CreateAlterSnoc(CreateAlterOne(dbs, a[0]).dbs, a[1..], db);
    }
  }

  lemma {:induction false} RenameDeleteSnoc(dbs: Dbs, a: seq<DeltaOp>, op: DeltaOp)
    ensures var p := RenameDelete(dbs, a);
            RenameDelete(dbs, a + [op]) ==
            if p.None? then None
            else
              var q := RenameDeleteOne(p.value.dbs, op);
              if q.None? then None else Some(Then(p.value, q.value))
    decreases |a|
  {
    if a == [] {
      assert [op][1..] == [] && a + [op] == [op];
      var last := RenameDeleteOne(dbs, op);
      if last.Some? {
        assert last.value.cmds + [] == last.value.cmds && [] + last.value.cmds == last.value.cmds;
      }
    } else {
      assert (a + [op])[1..] == a[1..] + [op];
      var first := RenameDeleteOne(dbs, a[0]);
      if first.Some? {
        RenameDeleteSnoc(first.value.dbs, a[1..], op);
        var rest := RenameDelete(first.value.dbs, a[1..]);
        if rest.Some? && RenameDeleteOne(rest.value.dbs, op).Some? {
          var last := RenameDeleteOne(rest.value.dbs, op).value;
          assert first.value.cmds + (rest.value.cmds + last.cmds) == (first.value.cmds + rest.value.cmds) + last.cmds;
        }
      }
    }
  }

  lemma {:induction false} RenameDeletePanics(dbs: Dbs, a: seq<DeltaOp>, b: seq<DeltaOp>)
    requires RenameDelete(dbs, a).None?
    ensures RenameDelete(dbs, a + b).None?
    decreases |a|
  {
    assert (a + b)[1..] == a[1..] + b;
    var first := RenameDeleteOne(dbs, a[0]);
    if first.Some? {
      RenameDeletePanics(first.value.dbs, a[1..], b);
    }
  }

  // ----- the snapshot -------------------------------------------------------------

  class MutableApplyContext {
    var roles: Verifiers
    var dbs: Dbs

    constructor (roles: Verifiers, dbs: Dbs)
      ensures this.roles == roles && this.dbs == dbs
    {
      this.roles := roles;
      this.dbs := dbs;
    }

    /** The hash map yields its keys in an order nobody chooses. */
    method DropInvalidDatabases() returns (names: seq<string>, cmds: seq<Command>)
      modifies `dbs
      ensures dbs == old(dbs) - InvalidNames(old(dbs))
      ensures cmds == Drops(names) && Distinct(names)
      ensures forall n :: n in names <==> n in InvalidNames(old(dbs))
    {
      names, cmds := [], [];
      var keys := InvalidNames(dbs);
      while keys != {}
        invariant forall n :: n in InvalidNames(old(dbs)) <==> n in names || n in keys
        invariant forall n :: !(n in names && n in keys)
        invariant Distinct(names) && cmds == Drops(names)
        invariant dbs == old(dbs) - (set n | n in names)
        decreases keys
      {
        var n :| n in keys;
        keys := keys - {n};
        dbs := dbs - {n};
        names := names + [n];
        cmds := cmds + [DropDatabaseIfExists(n)];
      }
      assert (set n | n in names) == InvalidNames(old(dbs));
    }

    /** No operation ever comes of it: `false` is the panic on a role that is not in the snapshot. */
    method RenameRoles(ops: seq<DeltaOp>) returns (known: bool)
      ensures known <==> RenamedRolesKnown(roles, ops)
      ensures known <==> forall op <- ops | op.action == "rename_role" :: op.name in roles
    {
      for i := 0 to |ops|
        invariant RenamedRolesKnown(roles, ops[..i])
      {
        if ops[i].action == "rename_role" && ops[i].name !in roles {
          return false;
        }
        assert ops[..i + 1] == ops[..i] + [ops[i]];
      }
      assert ops[..|ops|] == ops;
      known := true;
    }

    method CreateAndAlterRoles(listed: seq<Role>, jwksRoles: set<string>) returns (cmds: seq<Command>)
      ensures cmds == RoleCommands(roles, jwksRoles, listed)
    {
      cmds := [];
      for i := 0 to |listed|
        invariant cmds == RoleCommands(roles, jwksRoles, listed[..i])
      {
        var role := listed[i];
        RoleCommandsSnoc(roles, jwksRoles, listed[..i], role);
        assert listed[..i + 1] == listed[..i] + [role];
        if role.name in roles {
          if roles[role.name] != role.encryptedPassword {
            cmds := cmds + [AlterRole(role.name, StoredVerifier(role.encryptedPassword))];
          }
        } else {
          cmds := cmds + [CreateRole(role.name, StoredVerifier(role.encryptedPassword), role.name !in jwksRoles)];
        }
      }
      assert listed[..|listed|] == listed;
    }

    /** `None` is the panic on a rename that lacks a new name. */
    method RenameAndDeleteDatabases(ops: seq<DeltaOp>) returns (cmds: Option<seq<Command>>)
      modifies `dbs
      ensures var phase := RenameDelete(old(dbs), ops);
              && (cmds.None? <==> phase.None?)
              && (phase.Some? ==> dbs == phase.value.dbs && cmds == Some(phase.value.cmds))
    {
      var out: seq<Command> := [];
      for i := 0 to |ops|
        invariant RenameDelete(old(dbs), ops[..i]) == Some(Phase(dbs, out))
      {
        var op := ops[i];
        RenameDeleteSnoc(old(dbs), ops[..i], op);
        assert ops[..i + 1] == ops[..i] + [op];
        if op.action == "delete_db" {
          dbs := dbs - {op.name};
          out := out + [UnsetTemplateIfExists(op.name), DropDatabaseIfExists(op.name)];
        } else if op.action == "rename_db" && op.name in dbs {
          var db := dbs[op.name];
          dbs := dbs - {op.name};
          if op.newName.None? {
            RenameDeletePanics(old(dbs), ops[..i + 1], ops[i + 1..]);
            assert ops == ops[..i + 1] + ops[i + 1..];
            return None;
          }
          db := db.(name := op.newName.value);
          dbs := dbs[db.name := db];
          out := out + [RenameDatabase(op.name, op.newName.value)];
        } else {
          assert out + [] == out;
        }
      }
      assert ops[..|ops|] == ops;
      cmds := Some(out);
    }

    method CreateAndAlterDatabases(listed: seq<ListedDb>) returns (cmds: seq<Command>)
      modifies `dbs
      ensures Phase(dbs, cmds) == CreateAlter(old(dbs), listed)
    {
      cmds := [];
      for i := 0 to |listed|
        invariant Phase(dbs, cmds) == CreateAlter(old(dbs), listed[..i])
      {
        var db := listed[i];
        CreateAlterSnoc(old(dbs), listed[..i], db);
        assert listed[..i + 1] == listed[..i] + [db];
        if db.name in dbs {
          var edb := dbs[db.name];
          var changeOwner := ChangesOwner(edb, db.owner);
          dbs := dbs[db.name := edb.(owner := db.owner)];
          if changeOwner {
            cmds := cmds + [AlterDatabaseOwner(db.name, db.owner)];
          }
        } else {
          dbs := dbs[db.name := Database(db.name, db.owner, false, false)];
          cmds := cmds + [CreateDatabase(db.name, db.owner), GrantOnDatabase(db.name)];
        }
      }
      assert listed[..|listed|] == listed;
    }
  }

  lemma OneMore(roles: set<string>, w: World, schedule: seq<nat>, i: nat)
    requires i < |RunSchedule(roles, w, schedule).tasks|
    ensures RunSchedule(roles, w, schedule + [i]) == WorldStep(roles, RunSchedule(roles, w, schedule), i)
  {
    RunScheduleConcat(roles, w, schedule, [i]);
    assert [i][1..] == [];
    var w1 := RunSchedule(roles, w, schedule);
    assert RunSchedule(roles, w1, [i]) == RunSchedule(roles, WorldStep(roles, w1, i), []);
  }

  // ----- the server -----------------------------------------------------------------

  class Postgres {
    var cat: Catalog

    constructor (c: Catalog)
      ensures cat == c
    {
      cat := c;
    }

    /** All commands are sent before any answer is looked at. */
    method Execute(cmds: seq<Command>) returns (ok: bool)
      modifies this
      ensures (cat, ok) == ExecAll(old(cat), cmds)
    {
      ok := true;
      for i := 0 to |cmds|
        invariant ExecAll(old(cat), cmds) == (ExecAll(cat, cmds[i..]).0, ok && ExecAll(cat, cmds[i..]).1)
      {
        assert cmds[i..][1..] == cmds[i + 1..];
        match Exec(cat, cmds[i]) {
          case Some(c) => cat := c;
          case None => ok := false;
        }
      }
    }

    /** One task sends its next command, or finishes a batch. */
    method StepTask(tasks: seq<Task>, i: nat) returns (next: seq<Task>)
      requires i < |tasks|
      modifies this
      ensures var w := WorldStep(old(cat).roles.Keys, World(old(cat).dbs, tasks), i);
              cat == old(cat).(dbs := w.dbs) && next == w.tasks
    {
      var task := tasks[i];
      if task.target !in cat.dbs {
        return tasks[i := Refused(task)];
      }
      var step := LocalStep(cat.roles.Keys, cat.dbs[task.target].inside, task);
      cat := cat.(dbs := Rows(cat.dbs, task.target, step.0, LocalMove(cat.roles.Keys, task)));
      next := tasks[i := step.1];
    }

    /**
     The spawned tasks, scheduled in any order whatever.  The driver awaits them in order and
     gives up at the first that has failed, or, if `mayCrash`, at any time.
     */
    method RunTasks(spawned: seq<Task>, mayCrash: bool) returns (ok: bool, ghost schedule: seq<nat>)
      modifies this
      ensures var w := RunSchedule(old(cat).roles.Keys, World(old(cat).dbs, spawned), schedule);
              && cat == old(cat).(dbs := w.dbs) && ok == Succeeded(w)
              && (!mayCrash ==> Over(w))
    {
      var tasks, awaited := spawned, 0;
      ghost var roles, w0 := cat.roles.Keys, World(cat.dbs, spawned);
      schedule := [];
      while awaited < |tasks|
        invariant awaited <= |tasks| && cat == old(cat).(dbs := cat.dbs)
        invariant World(cat.dbs, tasks) == RunSchedule(roles, w0, schedule)
        invariant forall i :: 0 <= i < awaited ==> tasks[i].todo == [] && !tasks[i].failed
        decreases TotalWork(tasks), |tasks| - awaited
      {
        if mayCrash {
          if * {
            return Succeeded(World(cat.dbs, tasks)), schedule;
          }
        }
        assert tasks[awaited] in tasks;
        var i: nat :| i < |tasks| && (tasks[i].todo != [] || i == awaited);
        if tasks[i].todo != [] {
          ghost var w := World(cat.dbs, tasks);
          StepWorks(roles, w, i);
          OneMore(roles, w0, schedule, i);
          tasks := StepTask(tasks, i);
          schedule := schedule + [i];
        } else if tasks[i].failed {
          GivesUp(World(cat.dbs, tasks), i);
          return false, schedule;
        } else {
          awaited := awaited + 1;
        }
      }
      AllAwaited(World(cat.dbs, tasks));
      ok := true;
    }
  }

  lemma AllAwaited(w: World)
    requires forall i :: 0 <= i < |w.tasks| ==> w.tasks[i].todo == [] && !w.tasks[i].failed
    ensures Succeeded(w) && Over(w)
  {
  }

  lemma GivesUp(w: World, i: nat)
    requires i < |w.tasks| && w.tasks[i].failed && forall j :: 0 <= j <= i ==> w.tasks[j].todo == []
    ensures !Succeeded(w) && Over(w)
  {
    assert w.tasks[i] in w.tasks;
  }

  // ----- the phases --------------------------------------------------------------------

  /** Server and snapshot are as the stage says; of a failed stage the snapshot is not looked at any more. */
  ghost predicate Matches(pg: Postgres, ctx: MutableApplyContext, ok: bool, s: Progress)
    reads pg, ctx
  {
    pg.cat == s.c && ok == s.ok && (ok ==> ctx.dbs == s.dbs)
  }

  /** The pre-drop tasks; a database that has gone in the meantime is only warned about. */
  method PreDropSubscriptions(pg: Postgres, ctx: MutableApplyContext, ops: seq<DeltaOp>)
    modifies pg
    ensures pg.cat == PreDrop(old(pg.cat), ctx.dbs, ops)
  {
    ghost var c := pg.cat;
    assert PreDrop(c, ctx.dbs, ops[..0]).dbs == c.dbs;
    for i := 0 to |ops|
      invariant pg.cat == PreDrop(c, ctx.dbs, ops[..i])
    {
      var n := ops[i].name;
      PreDropSnoc(c, ctx.dbs, ops, i);
      if ops[i].action == "delete_db" {
        if Accessible(ctx.dbs, UserDb(ListedDb(n, "cloud_admin"))) && n in pg.cat.dbs {
          var row := pg.cat.dbs[n];
          pg.cat := pg.cat.(dbs := pg.cat.dbs[n := row.(inside := row.inside.(subs := {}))]);
        }
      }
      assert pg.cat.dbs == PreDrop(c, ctx.dbs, ops[..i + 1]).dbs;
    }
    assert ops[..|ops|] == ops;
  }

  lemma PreDropSnoc(c: Catalog, dbs: Dbs, ops: seq<DeltaOp>, i: nat)
    requires i < |ops|
    ensures forall n :: PreDropped(dbs, ops[..i + 1], n) <==>
              PreDropped(dbs, ops[..i], n)
              || (ops[i].action == "delete_db" && ops[i].name == n && Accessible(dbs, UserDb(ListedDb(n, "cloud_admin"))))
  {
    assert ops[..i + 1] == ops[..i] + [ops[i]];
    assert forall op :: op in ops[..i + 1] <==> op in ops[..i] || op == ops[i];
  }

  method CreatePrivilegedRole(pg: Postgres, role: string)
    modifies pg
    ensures pg.cat == WithRole(old(pg.cat), role)
  {
    var cmds := [CreateRoleIfMissing(role)];
    ghost var c := pg.cat;
    var ok := pg.Execute(cmds);
    assert cmds[1..] == [];
    assert ExecAll(c, cmds) == ExecAll(Exec(c, cmds[0]).value, []);
  }

  method DropInvalidPhase(pg: Postgres, ctx: MutableApplyContext) returns (ok: bool)
    modifies pg, ctx`dbs
    ensures Matches(pg, ctx, ok, DropInvalidStage(Progress(old(pg.cat), old(ctx.dbs), true)))
  {
    ghost var c, dbs := pg.cat, ctx.dbs;
    var names, cmds := ctx.DropInvalidDatabases();
    DropsEffect(c, names);
    assert Removed(c, names) == set n | n in InvalidNames(dbs) && n in c.dbs && Droppable(c.dbs[n]);
    ok := pg.Execute(cmds);
  }

  method RolesPhase(pg: Postgres, ctx: MutableApplyContext, job: Job) returns (ok: bool)
    modifies pg
    ensures Matches(pg, ctx, ok, RolesStage(Progress(old(pg.cat), ctx.dbs, true), ctx.roles, job))
  {
    var known := ctx.RenameRoles(job.spec.deltaOperations);
    if !known {
      return false;
    }
    var cmds := ctx.CreateAndAlterRoles(job.spec.roles, job.p.jwksRoles);
    ok := pg.Execute(cmds);
  }

  method RenameAndDeletePhase(pg: Postgres, ctx: MutableApplyContext, ops: seq<DeltaOp>) returns (ok: bool)
    modifies pg, ctx`dbs
    ensures Matches(pg, ctx, ok, RenameStage(Progress(old(pg.cat), old(ctx.dbs), true), ops))
  {
    var cmds := ctx.RenameAndDeleteDatabases(ops);
    if cmds.None? {
      return false;
    }
    ok := pg.Execute(cmds.value);
  }

  method CreateAndAlterPhase(pg: Postgres, ctx: MutableApplyContext, listed: seq<ListedDb>) returns (ok: bool)
    modifies pg, ctx`dbs
    ensures Matches(pg, ctx, ok, CreateStage(Progress(old(pg.cat), old(ctx.dbs), true), listed))
  {
    var cmds := ctx.CreateAndAlterDatabases(listed);
    ok := pg.Execute(cmds);
  }

  method PerDatabasePhase(pg: Postgres, ctx: MutableApplyContext, job: Job, drop: bool, mayCrash: bool)
    returns (ok: bool, ghost schedule: seq<nat>)
    modifies pg
    ensures Matches(pg, ctx, ok, TasksStage(Progress(old(pg.cat), ctx.dbs, true), ctx.roles.Keys, job, drop, schedule))
    ensures !mayCrash ==>
              Over(RunSchedule(old(pg.cat).roles.Keys,
                               WorldOf(Progress(old(pg.cat), ctx.dbs, true), ctx.roles.Keys, job, drop), schedule))
  {
    var tasks := TasksOf(ctx.dbs, ctx.roles.Keys, job, drop);
    ok, schedule := pg.RunTasks(tasks, mayCrash);
  }

  method DropRoles(ops: seq<DeltaOp>) returns (cmds: seq<Command>)
    ensures cmds == DropRoleCommands(ops)
  {
    cmds := [];
    for i := 0 to |ops|
      invariant cmds == DropRoleCommands(ops[..i])
    {
      DropRoleCommandsSnoc(ops[..i], ops[i]);
      assert ops[..i + 1] == ops[..i] + [ops[i]];
      if ops[i].action == "delete_role" {
        cmds := cmds + [DropRoleIfExists(ops[i].name)];
      }
    }
    assert ops[..|ops|] == ops;
  }

  lemma {:induction false} DropRoleCommandsSnoc(a: seq<DeltaOp>, op: DeltaOp)
    ensures DropRoleCommands(a + [op]) ==
            DropRoleCommands(a) + (if op.action == "delete_role" then [DropRoleIfExists(op.name)] else [])
    decreases |a|
  {
    if a == [] {
      assert a + [op] == [op] && [op][1..] == [];
    } else {
      assert (a + [op])[1..] == a[1..] + [op];
      DropRoleCommandsSnoc(a[1..], op);
    }
  }

  method DropRolesPhase(pg: Postgres, ctx: MutableApplyContext, ops: seq<DeltaOp>) returns (ok: bool)
    modifies pg
    ensures Matches(pg, ctx, ok, DropRolesStage(Progress(old(pg.cat), ctx.dbs, true), ops))
  {
    var cmds := DropRoles(ops);
    ok := pg.Execute(cmds);
  }

  method FinalizeDropPhase(pg: Postgres, ctx: MutableApplyContext, job: Job, drop: bool)
    modifies pg
    ensures Matches(pg, ctx, true, RecordStage(Progress(old(pg.cat), ctx.dbs, true), job, drop))
  {
    if drop {
      var cmds := [RecordDrop(job.timeline)];
      ghost var c := pg.cat;
      var ok := pg.Execute(cmds);
      assert cmds[1..] == [];
      assert ExecAll(c, cmds) == ExecAll(Exec(c, cmds[0]).value, []);
    }
  }

  // ----- the driver -----------------------------------------------------------------------

  ghost predicate At(pg: Postgres, ctx: MutableApplyContext, ok: bool, k: nat, c: Catalog, job: Job)
    reads pg, ctx
  {
    Matches(pg, ctx, ok, After(k, c, job, [])) && ctx.roles == c.roles
  }

  /** Pre-drop, `CreatePrivilegedRole`, `DropInvalidDatabases`, `CreateAndAlterRoles` */
  method FirstPhases(pg: Postgres, ctx: MutableApplyContext, job: Job, stop: nat) returns (ok: bool)
    requires ctx.roles == pg.cat.roles && ctx.dbs == Snapshot(pg.cat)
    modifies pg, ctx
    ensures At(pg, ctx, ok, if stop < 4 then stop else 4, old(pg.cat), job)
  {
    ghost var c := pg.cat;
    assert After(0, c, job, []) == Progress(c, Snapshot(c), true);
    if stop == 0 { return true; }
    PreDropSubscriptions(pg, ctx, job.spec.deltaOperations);
    assert At(pg, ctx, true, 1, c, job);
    if stop == 1 { return true; }
    CreatePrivilegedRole(pg, job.p.privilegedRole);
    assert At(pg, ctx, true, 2, c, job);
    if stop == 2 { return true; }
    ok := DropInvalidPhase(pg, ctx);
    assert At(pg, ctx, ok, 3, c, job);
    if !ok || stop == 3 { return; }
    ok := RolesPhase(pg, ctx, job);
  }

  /** `RenameAndDeleteDatabases`, `CreateAndAlterDatabases` */
  method DatabasePhases(pg: Postgres, ctx: MutableApplyContext, job: Job, stop: nat, ghost c: Catalog) returns (ok: bool)
    requires At(pg, ctx, true, 4, c, job) && stop >= 4
    modifies pg, ctx`dbs
    ensures At(pg, ctx, ok, if stop < 6 then stop else 6, c, job)
  {
    if stop == 4 { return true; }
    ok := RenameAndDeletePhase(pg, ctx, job.spec.deltaOperations);
    assert At(pg, ctx, ok, 5, c, job);
    if !ok || stop == 5 { return; }
    ok := CreateAndAlterPhase(pg, ctx, job.spec.databases);
  }

  lemma {:induction false} FailedStays(j: nat, k: nat, c: Catalog, job: Job, schedule: seq<nat>)
    requires j <= k && !After(j, c, job, schedule).ok
    ensures After(k, c, job, schedule) == After(j, c, job, schedule)
    decreases k
  {
    if j < k {
      FailedStays(j, k - 1, c, job, schedule);
    }
  }

  /** `RunInEachDatabase`, `DropRoles`, `FinalizeDropLogicalSubscriptions` */
  method LastPhases(pg: Postgres, ctx: MutableApplyContext, job: Job, drop: bool, stop: nat, ghost c: Catalog)
    returns (ok: bool, ghost schedule: seq<nat>)
    requires At(pg, ctx, true, 6, c, job) && stop >= 6 && drop == NeedsDrop(c, job)
    modifies pg
    ensures pg.cat == After(stop, c, job, schedule).c
    ensures ok <==> stop >= STAGES && After(STAGES, c, job, schedule).ok
    ensures stop >= STAGES ==> RunsToEnd(c, job, schedule)
  {
    if stop == 6 {
      return false, [];
    }
    ok, schedule := PerDatabasePhase(pg, ctx, job, drop, stop == 7);
    SameBefore(6, c, job, schedule, []);
    assert Matches(pg, ctx, ok, After(7, c, job, schedule));
    if !ok {
      FailedStays(7, stop, c, job, schedule);
      FailedStays(7, 9, c, job, schedule);
      return;
    }
    if stop == 7 {
      return false, schedule;
    }
    ok := DropRolesPhase(pg, ctx, job.spec.deltaOperations);
    assert Matches(pg, ctx, ok, After(8, c, job, schedule));
    if !ok {
      FailedStays(8, stop, c, job, schedule);
      FailedStays(8, 9, c, job, schedule);
      return;
    }
    if stop == 8 {
      return false, schedule;
    }
    FinalizeDropPhase(pg, ctx, job, drop);
    DropSubscriptions.NothingAfterTheLast(stop, c, job, schedule);
  }

  /**
   The driver, crashing after `stop` phases or in the middle of the tasks.  The record is read
   first and written last.  What a whole apply achieves and when it succeeds follows for every
   order in which the tasks happen to run.
   */
  method ApplySpecSql(pg: Postgres, job: Job, stop: nat) returns (ok: bool, ghost schedule: seq<nat>)
    modifies pg
    ensures pg.cat == After(stop, old(pg.cat), job, schedule).c
    ensures ok <==> stop >= STAGES && After(STAGES, old(pg.cat), job, schedule).ok
    ensures WellFormed(old(pg.cat)) ==> WellFormed(pg.cat)
    ensures WellFormed(old(pg.cat)) && ok && Regular(old(pg.cat), job) ==>
              && (Converged(old(pg.cat), pg.cat, job) <==> Coherent(job.spec))
              && pg.cat.dbs.Keys == NamesAfter(ValidNames(old(pg.cat)), job.spec.deltaOperations) + DbNames(job.spec.databases)
              && pg.cat.roles.Keys == old(pg.cat).roles.Keys + {job.p.privilegedRole} + RoleNames(job.spec.roles)
                                      - DeletedRoles(job.spec.deltaOperations)
    ensures WellFormed(old(pg.cat)) && Regular(old(pg.cat), job) && SystemApart(old(pg.cat), job) && Settles(old(pg.cat), job) ==>
              (stop >= STAGES ==> (ok <==> Appliable(old(pg.cat), job)))
    ensures pg.cat.record != old(pg.cat).record ==>
              ok && pg.cat.record == Some(job.timeline) && DropSubscriptions.SubscriptionsGone(pg.cat, job.spec.databases)
  {
    ghost var c := pg.cat;
    var drop := job.spec.dropSubscriptionsBeforeStart && pg.cat.record != Some(job.timeline);
    var ctx := new MutableApplyContext(pg.cat.roles, Snapshot(pg.cat));
    ok, schedule := RunPhases(pg, ctx, job, drop, stop);
    Consequences(c, job, schedule, stop);
  }

  method RunPhases(pg: Postgres, ctx: MutableApplyContext, job: Job, drop: bool, stop: nat)
    returns (ok: bool, ghost schedule: seq<nat>)
    requires ctx.roles == pg.cat.roles && ctx.dbs == Snapshot(pg.cat) && drop == NeedsDrop(pg.cat, job)
    modifies pg, ctx
    ensures pg.cat == After(stop, old(pg.cat), job, schedule).c
    ensures ok <==> stop >= STAGES && After(STAGES, old(pg.cat), job, schedule).ok
    ensures stop >= STAGES ==> RunsToEnd(old(pg.cat), job, schedule)
  {
    ghost var c := pg.cat;
    ok := FirstPhases(pg, ctx, job, stop);
    if !ok {
      StopsEarly(if stop < 4 then stop else 4, stop, c, job);
      return false, [];
    }
    if stop < 4 {
      return false, [];
    }
    ok := DatabasePhases(pg, ctx, job, stop, c);
    if !ok {
      StopsEarly(if stop < 6 then stop else 6, stop, c, job);
      return false, [];
    }
    if stop < 6 {
      return false, [];
    }
    ok, schedule := LastPhases(pg, ctx, job, drop, stop, c);
  }

  lemma StopsEarly(j: nat, stop: nat, c: Catalog, job: Job)
    requires j <= stop && j <= 6 && !After(j, c, job, []).ok
    ensures After(stop, c, job, []) == After(j, c, job, []) && !After(STAGES, c, job, []).ok && !After(6, c, job, []).ok
  {
    FailedStays(j, stop, c, job, []);
    FailedStays(j, 9, c, job, []);
    FailedStays(j, 6, c, job, []);
  }

  lemma Consequences(c: Catalog, job: Job, schedule: seq<nat>, stop: nat)
    requires stop >= STAGES ==> RunsToEnd(c, job, schedule)
    ensures var s, ok := After(stop, c, job, schedule), stop >= STAGES && After(STAGES, c, job, schedule).ok;
            && (WellFormed(c) ==> WellFormed(s.c))
            && (WellFormed(c) && ok && Regular(c, job) ==>
                  && (Converged(c, s.c, job) <==> Coherent(job.spec))
                  && s.c.dbs.Keys == NamesAfter(ValidNames(c), job.spec.deltaOperations) + DbNames(job.spec.databases)
                  && s.c.roles.Keys == c.roles.Keys + {job.p.privilegedRole} + RoleNames(job.spec.roles)
                                       - DeletedRoles(job.spec.deltaOperations))
            && (WellFormed(c) && Regular(c, job) && SystemApart(c, job) && Settles(c, job) && stop >= STAGES ==>
                  (ok <==> Appliable(c, job)))
            && (s.c.record != c.record ==>
                  ok && s.c.record == Some(job.timeline) && DropSubscriptions.SubscriptionsGone(s.c, job.spec.databases))
  {
    if stop >= STAGES {
      DropSubscriptions.NothingAfterTheLast(stop, c, job, schedule);
    }
    if After(stop, c, job, schedule).c.record != c.record {
      DropSubscriptions.RecordMeansGone(stop, c, job, schedule);
    }
    if WellFormed(c) {
      AfterKeepsWellFormed(stop, c, job, schedule);
      if stop >= STAGES && Regular(c, job) {
        if After(STAGES, c, job, schedule).ok {
          ConvergesExactlyWhen(c, job, schedule);
          ApplyNames(c, job, schedule);
        }
        if SystemApart(c, job) && Settles(c, job) {
          AppliesExactlyWhen(c, job, schedule);
        }
      }
    }
  }
}
