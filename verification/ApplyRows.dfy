/**
 What every database looks like when the per-database tasks are spawned, and whether an apply
 gets that far, read off the catalog and the spec it starts from.
 */
module ApplyRows {
  import opened Prelude
  import opened PgCatalog
  import opened SpecApply
  import opened PerDatabase
  import opened ApplyStages

  type DbRows = map<string, DbRow>

  /** The valid databases, without the subscriptions that are dropped ahead of a deletion. */
  function StartRows(c: Catalog, ops: seq<DeltaOp>): DbRows {
    map n | n in ValidNames(c) :: PreDrop(c, Snapshot(c), ops).dbs[n]
  }

  /** The rows after the deletions and renames. */
  function Carry(rows: DbRows, ops: seq<DeltaOp>): DbRows
    decreases |ops|
  {
    if ops == [] then rows
    else
      var op := ops[0];
      Carry(
        if op.action == "delete_db" then rows - {op.name}
        else if op.action == "rename_db" && op.name in rows && op.newName.Some?
        then (rows - {op.name})[op.newName.value := rows[op.name]]
        else rows,
        ops[1..])
  }

  /** The row of a listed database: what was there, or a new one. */
  function Listed(rows: DbRows, db: ListedDb, templateObjects: map<string, string>): DbRow {
    if db.name in rows then rows[db.name].(owner := db.owner) else NewRow(db.owner, templateObjects).(granted := true)
  }

  function Assign(rows: DbRows, listed: seq<ListedDb>, templateObjects: map<string, string>): DbRows
    decreases |listed|
  {
    if listed == [] then rows
    else Assign(rows[listed[0].name := Listed(rows, listed[0], templateObjects)], listed[1..], templateObjects)
  }

  /** Deletions and renames first, then the listed databases. */
  function TaskRows(c: Catalog, job: Job): DbRows {
    var ops := job.spec.deltaOperations;
    Assign(Carry(StartRows(c, ops), ops), job.spec.databases, c.templateObjects)
  }

  /** Every rename of a database that is there when its turn comes has a new name. */
  predicate RenamesNamed(names: set<string>, ops: seq<DeltaOp>)
    decreases |ops|
  {
    if ops == [] then true
    else
      var op := ops[0];
      if op.action == "delete_db" then RenamesNamed(names - {op.name}, ops[1..])
      else if op.action == "rename_db" && op.name in names then
        op.newName.Some? && RenamesNamed(names - {op.name} + {op.newName.value}, ops[1..])
      else RenamesNamed(names, ops[1..])
  }

  lemma {:induction false} RenamesNamedExactlyWhen(dbs: Dbs, ops: seq<DeltaOp>)
    ensures RenameDelete(dbs, ops).Some? <==> RenamesNamed(dbs.Keys, ops)
    decreases |ops|
  {
    if ops != [] && RenameDeleteOne(dbs, ops[0]).Some? {
      var op, first := ops[0], RenameDeleteOne(dbs, ops[0]).value;
      RenamesNamedExactlyWhen(first.dbs, ops[1..]);
      if op.action == "delete_db" {
        assert first.dbs.Keys == dbs.Keys - {op.name};
      } else if op.action == "rename_db" && op.name in dbs {
        assert first.dbs.Keys == dbs.Keys - {op.name} + {op.newName.value};
      }
    }
  }

  lemma RowsAfterRoles(c: Catalog, job: Job, schedule: seq<nat>)
    requires After(4, c, job, schedule).ok
    ensures var s := After(4, c, job, schedule);
            s.c.dbs == StartRows(c, job.spec.deltaOperations) && s.c.templateObjects == c.templateObjects
  {
    var ops := job.spec.deltaOperations;
    OkBefore(3, 4, c, job, schedule);
    ThirdStage(c, job, schedule);
    PreDropKeeps(c, ops);
    assert After(0, c, job, schedule) == Progress(c, Snapshot(c), true);
    var s1 := After(1, c, job, schedule);
    assert s1 == Progress(PreDrop(c, Snapshot(c), ops), Snapshot(c), true);
    var s2 := After(2, c, job, schedule);
    assert s2 == s1.(c := WithRole(s1.c, job.p.privilegedRole));
    var s3 := After(3, c, job, schedule);
    assert s3 == DropInvalidStage(s2);
    assert s3.c.dbs == StartRows(c, ops);
    RolesAgreeStage(s3, c.roles, job);
  }

  lemma {:induction false} RowsCarried(c: Catalog, ops: seq<DeltaOp>)
    requires NoInvalid(c) && RenameDelete(Snapshot(c), ops).Some? && TargetsFree(c.dbs.Keys, Busy(c.dbs), ops)
    ensures ExecAll(c, RenameDelete(Snapshot(c), ops).value.cmds).0 == c.(dbs := Carry(c.dbs, ops))
    decreases |ops|
  {
    if ops != [] {
      var op := ops[0];
      var first := RenameDeleteOne(Snapshot(c), op).value;
      var rest := RenameDelete(first.dbs, ops[1..]).value;
      ExecAllConcat(c, first.cmds, rest.cmds);
      var (c1, ok) := ExecAll(c, first.cmds);
      if op.action == "delete_db" {
        DeleteStep(c, op.name);
        assert c1.dbs.Keys == c.dbs.Keys - {op.name};
        TargetsFreeLocal(c1.dbs.Keys, Busy(c1.dbs), Busy(c.dbs), ops[1..]);
      } else if op.action == "rename_db" && op.name in c.dbs {
        RenameStep(c, op.name, op.newName.value);
        assert c1.dbs.Keys == c.dbs.Keys - {op.name} + {op.newName.value};
        TargetsFreeLocal(c1.dbs.Keys, Busy(c1.dbs), Renamed(Busy(c.dbs), op.name, op.newName.value), ops[1..]);
      }
      RowsCarried(c1, ops[1..]);
    }
  }

  lemma {:induction false} AssignAt(rows: DbRows, listed: seq<ListedDb>, templateObjects: map<string, string>)
    requires DistinctDbs(listed)
    ensures var rows1 := Assign(rows, listed, templateObjects);
            && (forall db <- listed :: db.name in rows1 && rows1[db.name] == Listed(rows, db, templateObjects))
            && (forall n | (forall db <- listed :: db.name != n) ::
                  (n in rows1 <==> n in rows) && (n in rows ==> rows1[n] == rows[n]))
    decreases |listed|
  {
    if listed != [] {
      RestHasOtherNames(listed);
      AssignAt(rows[listed[0].name := Listed(rows, listed[0], templateObjects)], listed[1..], templateObjects);
    }
  }

  lemma RowsAssigned(c: Catalog, listed: seq<ListedDb>, dbs1: Dbs, c1: Catalog)
    requires DistinctDbs(listed) && ListOutcome(Snapshot(c), c, listed, dbs1, c1)
    requires forall db <- listed :: HasOwner(c1.dbs, db)
    ensures c1.dbs == Assign(c.dbs, listed, c.templateObjects)
  {
    var rows1 := Assign(c.dbs, listed, c.templateObjects);
    AssignAt(c.dbs, listed, c.templateObjects);
    forall n ensures (n in c1.dbs <==> n in rows1) && (n in c1.dbs ==> c1.dbs[n] == rows1[n]) {
      if db :| db in listed && db.name == n {
        assert ListedOutcome(Snapshot(c), c, db, dbs1, c1) && HasOwner(c1.dbs, db);
      } else {
        assert UnlistedOutcome(Snapshot(c), c, n, dbs1, c1);
      }
    }
  }

  /** The databases a regular spec hands to the tasks are those computed from the start. */
  lemma RowsForTasks(c: Catalog, job: Job, schedule: seq<nat>)
    requires WellFormed(c) && Regular(c, job) && After(6, c, job, schedule).ok
    ensures var s := After(6, c, job, schedule);
            s.c.dbs == TaskRows(c, job) && s.c.templateObjects == c.templateObjects
  {
    var ops, listed := job.spec.deltaOperations, job.spec.databases;
    OkBefore(5, 6, c, job, schedule);
    OkBefore(4, 5, c, job, schedule);
    RowsAfterRoles(c, job, schedule);
    RolesApplied(c, job, schedule);
    RenameApplied(c, job, schedule);
    RegularDatabasesApplied(c, job, schedule);
    var s4, s5 := After(4, c, job, schedule), After(5, c, job, schedule);
    assert s5 == RenameStage(s4, ops);
    RowsCarried(s4.c, ops);
    assert After(6, c, job, schedule) == CreateStage(s5, listed);
    CreateAlterEffect(s5.dbs, s5.c, listed);
    RowsAssigned(s5.c, listed, After(6, c, job, schedule).dbs, After(6, c, job, schedule).c);
  }

  /** The roles there are when the tasks are spawned. */
  function LiveRoles(c: Catalog, job: Job): set<string> {
    c.roles.Keys + {job.p.privilegedRole} + RoleNames(job.spec.roles)
  }

  function ListedOwners(listed: seq<ListedDb>): set<string> {
    set db | db in listed :: db.owner
  }

  /** What the phases before the tasks ask of the catalog and the spec. */
  ghost predicate ReachesTasks(c: Catalog, job: Job) {
    var ops := job.spec.deltaOperations;
    && InvalidDroppable(c)
    && RenamedRolesKnown(c.roles, ops)
    && PrivilegedFits(c, job)
    && RenamesNamed(ValidNames(c), ops)
    && TargetsFree(ValidNames(c), Busy(StartRows(c, ops)), ops)
    && ListedOwners(job.spec.databases) <= LiveRoles(c, job)
  }

  /** A regular spec gets as far as the tasks exactly when all of that holds. */
  lemma ReachesTasksExactlyWhen(c: Catalog, job: Job, schedule: seq<nat>)
    requires WellFormed(c) && Regular(c, job)
    ensures After(6, c, job, schedule).ok <==> ReachesTasks(c, job)
  {
    RolesApplied(c, job, schedule);
    if After(4, c, job, schedule).ok {
      RowsAfterRoles(c, job, schedule);
      RenameApplied(c, job, schedule);
      var s4 := After(4, c, job, schedule);
      assert Snapshot(s4.c).Keys == ValidNames(c);
      RenamesNamedExactlyWhen(Snapshot(s4.c), job.spec.deltaOperations);
      if After(5, c, job, schedule).ok {
        RegularDatabasesApplied(c, job, schedule);
        OwnersLive(After(5, c, job, schedule).c.roles.Keys, job.spec.databases);
      }
    }
  }

  lemma OwnersLive(roles: set<string>, listed: seq<ListedDb>)
    ensures (forall db <- listed :: db.owner in roles) <==> ListedOwners(listed) <= roles
  {
    forall db <- listed ensures db.owner in ListedOwners(listed) {
    }
  }
}
