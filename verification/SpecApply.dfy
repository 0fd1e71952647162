/**
 The cluster-wide phases of `spec_apply.rs`: which commands each phase emits from the
 snapshot of the catalog, how it rewrites the snapshot, and that the two agree.
 */
module SpecApply {
  import opened Prelude
  import opened PgText
  import opened PgCatalog

  /** A database as the snapshot knows it. */
  datatype Database = Database(name: string, owner: string, restrictConn: bool, invalid: bool)

  /** A database as the spec lists it; the two flags are never deserialized, so they are false. */
  datatype ListedDb = ListedDb(name: string, owner: string)

  datatype Role = Role(name: string, encryptedPassword: Option<string>)

  datatype DeltaOp = DeltaOp(action: string, name: string, newName: Option<string>)

  datatype Spec = Spec(
    roles: seq<Role>,
    databases: seq<ListedDb>,
    deltaOperations: seq<DeltaOp>,
    dropSubscriptionsBeforeStart: bool)

  type Dbs = map<string, Database>

  /** `get_existing_dbs_async` */
  function Snapshot(c: Catalog): Dbs {
    map n | n in c.dbs :: Database(n, c.dbs[n].owner, c.dbs[n].restrictConn, c.dbs[n].invalid)
  }

  // ----- DropInvalidDatabases ------------------------------------------------------

  function InvalidNames(dbs: Dbs): set<string> {
    set n | n in dbs && dbs[n].invalid
  }

  predicate NoInvalid(c: Catalog) {
    forall n <- c.dbs :: !c.dbs[n].invalid
  }

  function Drops(names: seq<string>): seq<Command> {
    seq(|names|, i requires 0 <= i < |names| => DropDatabaseIfExists(names[i]))
  }

  /** Those of `names` that a plain DROP DATABASE removes from `c`. */
  function Removed(c: Catalog, names: seq<string>): set<string> {
    set n | n in names && n in c.dbs && Droppable(c.dbs[n])
  }

  predicate AllDroppable(c: Catalog, names: seq<string>) {
    forall n <- names :: n in c.dbs ==> Droppable(c.dbs[n])
  }

  /** Each database is dropped or kept on its own account, in whatever order they are named. */
  lemma {:induction false} DropsEffect(c: Catalog, names: seq<string>)
    ensures ExecAll(c, Drops(names)) == (c.(dbs := c.dbs - Removed(c, names)), AllDroppable(c, names))
    decreases |names|
  {
    if names == [] {
      assert c.dbs - Removed(c, names) == c.dbs;
    } else {
      var n, rest := names[0], names[1..];
      assert Drops(names)[1..] == Drops(rest);
      assert forall m :: m in names <==> m == n || m in rest;
      match Exec(c, DropDatabaseIfExists(n)) {
        case Some(c1) =>
          DropsEffect(c1, rest);
          assert c1.dbs - Removed(c1, rest) == c.dbs - Removed(c, names);
        case None =>
          DropsEffect(c, rest);
          assert Removed(c, names) == Removed(c, rest);
      }
    }
  }

  function WithoutInvalid(c: Catalog): Catalog {
    c.(dbs := c.dbs - InvalidNames(Snapshot(c)))
  }

  predicate InvalidDroppable(c: Catalog) {
    forall n <- c.dbs :: c.dbs[n].invalid ==> Droppable(c.dbs[n])
  }

  /** In whatever order the hash map yields the invalid databases, the snapshot still agrees afterwards. */
  lemma DropInvalidAgrees(c: Catalog, names: seq<string>)
    requires forall n :: n in names <==> n in InvalidNames(Snapshot(c))
    ensures var dbs := Snapshot(c) - InvalidNames(Snapshot(c));
            var (c1, ok) := ExecAll(c, Drops(names));
            && (ok <==> InvalidDroppable(c))
            && (ok ==> Snapshot(c1) == dbs && NoInvalid(c1) && c1 == WithoutInvalid(c))
            && c1.roles == c.roles
  {
    DropsEffect(c, names);
    if InvalidDroppable(c) {
      assert Removed(c, names) == InvalidNames(Snapshot(c));
    }
  }

  // ----- RenameAndDeleteDatabases -----------------------------------------------------

  /** What a phase leaves in the snapshot and what it asks Postgres to do. */
  datatype Phase = Phase(dbs: Dbs, cmds: seq<Command>)

  /** `None` stands for the panic on a rename without a new name. */
  function RenameDeleteOne(dbs: Dbs, op: DeltaOp): Option<Phase> {
    if op.action == "delete_db" then
      Some(Phase(dbs - {op.name}, [UnsetTemplateIfExists(op.name), DropDatabaseIfExists(op.name)]))
    else if op.action == "rename_db" && op.name in dbs then
      match op.newName
      case None => None
      case Some(m) =>
        Some(Phase((dbs - {op.name})[m := dbs[op.name].(name := m)], [RenameDatabase(op.name, m)]))
    else
      Some(Phase(dbs, []))
  }

  function RenameDelete(dbs: Dbs, ops: seq<DeltaOp>): Option<Phase>
    decreases |ops|
  {
    if ops == [] then Some(Phase(dbs, []))
    else
      match RenameDeleteOne(dbs, ops[0])
      case None => None
      case Some(first) =>
        match RenameDelete(first.dbs, ops[1..])
        case None => None
        case Some(rest) => Some(Phase(rest.dbs, first.cmds + rest.cmds))
  }

  /**
   Rename targets are free and deleted databases have no subscriptions left, judged on
   the names alone: `busy` are the databases that still hold subscriptions.
   */
  predicate TargetsFree(names: set<string>, busy: set<string>, ops: seq<DeltaOp>)
    decreases |ops|
  {
    if ops == [] then true
    else
      var op := ops[0];
      if op.action == "delete_db" then
        !(op.name in names && op.name in busy) && TargetsFree(names - {op.name}, busy, ops[1..])
      else if op.action == "rename_db" && op.name in names && op.newName.Some? then
        && op.newName.value !in names
        && TargetsFree(names - {op.name} + {op.newName.value}, Renamed(busy, op.name, op.newName.value), ops[1..])
      else
        TargetsFree(names, busy, ops[1..])
  }

  /** Which databases exist after the deletions and renames. */
  function NamesAfter(names: set<string>, ops: seq<DeltaOp>): set<string>
    decreases |ops|
  {
    if ops == [] then names
    else
      var op := ops[0];
      NamesAfter(
        if op.action == "delete_db" then names - {op.name}
        else if op.action == "rename_db" && op.name in names && op.newName.Some? then names - {op.name} + {op.newName.value}
        else names,
        ops[1..])
  }

  lemma {:induction false} RenameDeleteNames(dbs: Dbs, ops: seq<DeltaOp>)
    requires RenameDelete(dbs, ops).Some?
    ensures RenameDelete(dbs, ops).value.dbs.Keys == NamesAfter(dbs.Keys, ops)
    decreases |ops|
  {
    if ops != [] {
      var first := RenameDeleteOne(dbs, ops[0]).value;
      RenameDeleteNames(first.dbs, ops[1..]);
      var op := ops[0];
      assert op.action == "delete_db" ==> first.dbs.Keys == dbs.Keys - {op.name};
      assert op.action == "rename_db" && op.name in dbs ==> first.dbs.Keys == dbs.Keys - {op.name} + {op.newName.value};
    }
  }

  function Renamed(busy: set<string>, n: string, m: string): set<string> {
    if n in busy then busy - {n} + {m} else busy - {m}
  }

  function Busy(dbs: map<string, DbRow>): set<string> {
    set n | n in dbs && dbs[n].inside.subs != {}
  }

  /** `TargetsFree` looks at `busy` only below `names`. */
  lemma {:induction false} TargetsFreeLocal(names: set<string>, busy: set<string>, busy': set<string>, ops: seq<DeltaOp>)
    requires forall n <- names :: n in busy <==> n in busy'
    ensures TargetsFree(names, busy, ops) == TargetsFree(names, busy', ops)
    decreases |ops|
  {
    if ops != [] {
      var op := ops[0];
      if op.action == "delete_db" {
        TargetsFreeLocal(names - {op.name}, busy, busy', ops[1..]);
      } else if op.action == "rename_db" && op.name in names && op.newName.Some? {
        var m := op.newName.value;
        TargetsFreeLocal(names - {op.name} + {m}, Renamed(busy, op.name, m), Renamed(busy', op.name, m), ops[1..]);
      } else {
        TargetsFreeLocal(names, busy, busy', ops[1..]);
      }
    }
  }

  lemma DeleteStep(c: Catalog, n: string)
    requires NoInvalid(c)
    ensures var (c1, ok) := ExecAll(c, [UnsetTemplateIfExists(n), DropDatabaseIfExists(n)]);
            && (ok <==> !(n in c.dbs && n in Busy(c.dbs)))
            && (ok ==> Snapshot(c1) == Snapshot(c) - {n} && c1.dbs == c.dbs - {n})
            && c1 == c.(dbs := c1.dbs)
  {
    ExecAllConcat(c, [UnsetTemplateIfExists(n)], [DropDatabaseIfExists(n)]);
    assert [UnsetTemplateIfExists(n)] + [DropDatabaseIfExists(n)] == [UnsetTemplateIfExists(n), DropDatabaseIfExists(n)];
    var c0 := ExecAll(c, [UnsetTemplateIfExists(n)]).0;
    assert c0 == Exec(c, UnsetTemplateIfExists(n)).value;
    assert c0.dbs - {n} == c.dbs - {n};
    assert n !in c.dbs ==> c.dbs - {n} == c.dbs;
  }

  lemma RenameStep(c: Catalog, n: string, m: string)
    requires n in c.dbs
    ensures var (c1, ok) := ExecAll(c, [RenameDatabase(n, m)]);
            && (ok <==> m !in c.dbs)
            && (ok ==> && Snapshot(c1) == (Snapshot(c) - {n})[m := Snapshot(c)[n].(name := m)]
                       && c1.dbs == (c.dbs - {n})[m := c.dbs[n]])
            && c1 == c.(dbs := c1.dbs)
  {
  }

  /**
   The phase succeeds exactly when the rename targets are free and the deleted databases
   hold no subscriptions, and then the snapshot is what Postgres would report.
   */
  lemma {:induction false} RenameDeleteAgrees(c: Catalog, ops: seq<DeltaOp>)
    requires NoInvalid(c)
    requires RenameDelete(Snapshot(c), ops).Some?
    ensures var phase := RenameDelete(Snapshot(c), ops).value;
            var (c1, ok) := ExecAll(c, phase.cmds);
            && (ok <==> TargetsFree(c.dbs.Keys, Busy(c.dbs), ops))
            && (ok ==> Snapshot(c1) == phase.dbs && NoInvalid(c1))
            && (ok ==> c1 == c.(dbs := c1.dbs))
    decreases |ops|
  {
    if ops != [] {
      var op := ops[0];
      var first := RenameDeleteOne(Snapshot(c), op).value;
      var rest := RenameDelete(first.dbs, ops[1..]).value;
      ExecAllConcat(c, first.cmds, rest.cmds);
      var (c1, ok1) := ExecAll(c, first.cmds);
      if op.action == "delete_db" {
        DeleteStep(c, op.name);
        if ok1 {
          RenameDeleteAgrees(c1, ops[1..]);
          assert c1.dbs.Keys == c.dbs.Keys - {op.name};
          TargetsFreeLocal(c1.dbs.Keys, Busy(c1.dbs), Busy(c.dbs), ops[1..]);
        }
      } else if op.action == "rename_db" && op.name in c.dbs {
        var m := op.newName.value;
        RenameStep(c, op.name, m);
        if ok1 {
          RenameDeleteAgrees(c1, ops[1..]);
          assert c1.dbs.Keys == c.dbs.Keys - {op.name} + {m};
          TargetsFreeLocal(c1.dbs.Keys, Busy(c1.dbs), Renamed(Busy(c.dbs), op.name, m), ops[1..]);
        }
      } else {
        RenameDeleteAgrees(c, ops[1..]);
      }
    }
  }

  // ----- CreateAndAlterDatabases --------------------------------------------------------

  /** The comparison keeps compatibility with snapshots whose owners came back quoted. */
  predicate ChangesOwner(edb: Database, owner: string) {
    if StartsWith(edb.owner, "\"") then PgQuote(owner) != edb.owner else owner != edb.owner
  }

  function CreateAlterOne(dbs: Dbs, db: ListedDb): Phase {
    if db.name in dbs then
      Phase(dbs[db.name := dbs[db.name].(owner := db.owner)],
            if ChangesOwner(dbs[db.name], db.owner) then [AlterDatabaseOwner(db.name, db.owner)] else [])
    else
      Phase(dbs[db.name := Database(db.name, db.owner, false, false)],
            [CreateDatabase(db.name, db.owner), GrantOnDatabase(db.name)])
  }

  function CreateAlter(dbs: Dbs, listed: seq<ListedDb>): Phase
    decreases |listed|
  {
    if listed == [] then Phase(dbs, [])
    else
      var first := CreateAlterOne(dbs, listed[0]);
      var rest := CreateAlter(first.dbs, listed[1..]);
      Phase(rest.dbs, first.cmds + rest.cmds)
  }

  ghost predicate DistinctDbs(listed: seq<ListedDb>) {
    forall i, j :: 0 <= i < j < |listed| ==> listed[i].name != listed[j].name
  }

  function DbNames(listed: seq<ListedDb>): set<string> {
    set db | db in listed :: db.name
  }

  lemma {:induction false} CreateAlterNames(dbs: Dbs, listed: seq<ListedDb>)
    ensures CreateAlter(dbs, listed).dbs.Keys == dbs.Keys + DbNames(listed)
    decreases |listed|
  {
    if listed != [] {
      CreateAlterNames(CreateAlterOne(dbs, listed[0]).dbs, listed[1..]);
      assert DbNames(listed) == {listed[0].name} + DbNames(listed[1..]) by {
        assert forall db :: db in listed <==> db == listed[0] || db in listed[1..];
      }
    }
  }

  predicate EmitsCommand(dbs: Dbs, db: ListedDb) {
    db.name !in dbs || ChangesOwner(dbs[db.name], db.owner)
  }

  /** What one listed database ends up as, in the snapshot and in the catalog. */
  ghost predicate ListedOutcome(dbs: Dbs, c: Catalog, db: ListedDb, dbs1: Dbs, c1: Catalog) {
    && db.name in dbs1 && db.name in c1.dbs
    && dbs1[db.name] == (if db.name in dbs then dbs[db.name].(owner := db.owner)
                         else Database(db.name, db.owner, false, false))
    && (db.name !in dbs ==> c1.dbs[db.name] == NewRow(db.owner, c.templateObjects).(granted := true))
    && (db.name in dbs && db.name in c.dbs ==>
          c1.dbs[db.name] == (if ChangesOwner(dbs[db.name], db.owner) then c.dbs[db.name].(owner := db.owner)
                              else c.dbs[db.name]))
  }

  ghost predicate UnlistedOutcome(dbs: Dbs, c: Catalog, n: string, dbs1: Dbs, c1: Catalog) {
    && (n in dbs1 <==> n in dbs) && (n in c1.dbs <==> n in c.dbs)
    && (n in dbs ==> dbs1[n] == dbs[n])
    && (n in c.dbs ==> c1.dbs[n] == c.dbs[n])
  }

  lemma CreateAlterStep(dbs: Dbs, c: Catalog, db: ListedDb)
    requires dbs.Keys == c.dbs.Keys
    ensures var phase := CreateAlterOne(dbs, db);
            var (c1, ok) := ExecAll(c, phase.cmds);
            && (ok <==> EmitsCommand(dbs, db) ==> db.owner in c.roles)
            && (ok ==> && ListedOutcome(dbs, c, db, phase.dbs, c1)
                       && phase.dbs.Keys == c1.dbs.Keys
                       && c1 == c.(dbs := c1.dbs)
                       && forall n | n != db.name :: UnlistedOutcome(dbs, c, n, phase.dbs, c1))
  {
    if db.name !in dbs {
      ExecAllConcat(c, [CreateDatabase(db.name, db.owner)], [GrantOnDatabase(db.name)]);
      assert [CreateDatabase(db.name, db.owner)] + [GrantOnDatabase(db.name)]
          == CreateAlterOne(dbs, db).cmds;
    }
  }

  /** What the whole list ends up as. */
  ghost predicate ListOutcome(dbs: Dbs, c: Catalog, listed: seq<ListedDb>, dbs1: Dbs, c1: Catalog) {
    && (forall db <- listed :: ListedOutcome(dbs, c, db, dbs1, c1))
    && dbs1.Keys == c1.dbs.Keys
    && c1 == c.(dbs := c1.dbs)
    && forall n | (forall db <- listed :: db.name != n) :: UnlistedOutcome(dbs, c, n, dbs1, c1)
  }

  /** A step that leaves the database alone does not matter to what it ends up as. */
  lemma ListedLater(dbs: Dbs, c: Catalog, db: ListedDb, dbs1: Dbs, c1: Catalog, dbs2: Dbs, c2: Catalog)
    requires UnlistedOutcome(dbs, c, db.name, dbs1, c1) && c1.templateObjects == c.templateObjects
    requires dbs.Keys == c.dbs.Keys
    ensures EmitsCommand(dbs1, db) == EmitsCommand(dbs, db)
    ensures ListedOutcome(dbs1, c1, db, dbs2, c2) ==> ListedOutcome(dbs, c, db, dbs2, c2)
  {
  }

  lemma ListOutcomeCons(dbs: Dbs, c: Catalog, listed: seq<ListedDb>, dbs1: Dbs, c1: Catalog, dbs2: Dbs, c2: Catalog)
    requires listed != [] && dbs.Keys == c.dbs.Keys && DistinctDbs(listed)
    requires ListedOutcome(dbs, c, listed[0], dbs1, c1)
    requires c1 == c.(dbs := c1.dbs)
    requires forall n | n != listed[0].name :: UnlistedOutcome(dbs, c, n, dbs1, c1)
    requires ListOutcome(dbs1, c1, listed[1..], dbs2, c2)
    ensures ListOutcome(dbs, c, listed, dbs2, c2)
  {
    var db, rest := listed[0], listed[1..];
    RestHasOtherNames(listed);
    forall other <- listed ensures ListedOutcome(dbs, c, other, dbs2, c2) {
      if other == db {
        assert UnlistedOutcome(dbs1, c1, db.name, dbs2, c2);
      } else {
        ListedLater(dbs, c, other, dbs1, c1, dbs2, c2);
      }
    }
    forall n | (forall o <- listed :: o.name != n) ensures UnlistedOutcome(dbs, c, n, dbs2, c2) {
      assert UnlistedOutcome(dbs, c, n, dbs1, c1);
      assert UnlistedOutcome(dbs1, c1, n, dbs2, c2);
    }
  }

  lemma RestHasOtherNames(listed: seq<ListedDb>)
    requires listed != [] && DistinctDbs(listed)
    ensures DistinctDbs(listed[1..])
    ensures forall other <- listed[1..] :: other.name != listed[0].name
    ensures forall other <- listed :: other == listed[0] || other in listed[1..]
  {
  }

  lemma {:induction false} CreateAlterEffect(dbs: Dbs, c: Catalog, listed: seq<ListedDb>)
    requires dbs.Keys == c.dbs.Keys && DistinctDbs(listed)
    ensures var phase := CreateAlter(dbs, listed);
            var (c1, ok) := ExecAll(c, phase.cmds);
            && (ok <==> forall db <- listed :: EmitsCommand(dbs, db) ==> db.owner in c.roles)
            && (ok ==> ListOutcome(dbs, c, listed, phase.dbs, c1))
    decreases |listed|
  {
    if listed != [] {
      var db, rest := listed[0], listed[1..];
      var first := CreateAlterOne(dbs, db);
      ExecAllConcat(c, first.cmds, CreateAlter(first.dbs, rest).cmds);
      CreateAlterStep(dbs, c, db);
      RestHasOtherNames(listed);
      var (c1, ok1) := ExecAll(c, first.cmds);
      if ok1 {
        CreateAlterEffect(first.dbs, c1, rest);
        var dbs2 := CreateAlter(dbs, listed).dbs;
        var (c2, ok2) := ExecAll(c, CreateAlter(dbs, listed).cmds);
        forall other <- rest ensures EmitsCommand(first.dbs, other) == EmitsCommand(dbs, other) {
          ListedLater(dbs, c, other, first.dbs, c1, dbs2, c2);
        }
        if ok2 {
          ListOutcomeCons(dbs, c, listed, first.dbs, c1, dbs2, c2);
        }
      }
    }
  }

  /** Some role is literally named as the quoted form of the listed owner, and owns the database. */
  predicate QuotedNameClash(c: Catalog, db: ListedDb) {
    db.name in c.dbs && c.dbs[db.name].owner == PgQuote(db.owner)
  }

  predicate HasOwner(dbs: map<string, DbRow>, db: ListedDb) {
    db.name in dbs && dbs[db.name].owner == db.owner
  }

  lemma ListedAgrees(c: Catalog, db: ListedDb, dbs1: Dbs, c1: Catalog)
    requires ListedOutcome(Snapshot(c), c, db, dbs1, c1)
    ensures Snapshot(c1)[db.name] == dbs1[db.name] <==> !QuotedNameClash(c, db)
    ensures HasOwner(c1.dbs, db) <==> !QuotedNameClash(c, db)
    ensures NoInvalid(c) ==> !c1.dbs[db.name].invalid
  {
    PgQuoteMarks(db.owner);
  }

  lemma ListAgrees(c: Catalog, listed: seq<ListedDb>, dbs1: Dbs, c1: Catalog)
    requires ListOutcome(Snapshot(c), c, listed, dbs1, c1)
    ensures Snapshot(c1) == dbs1 <==> forall db <- listed :: !QuotedNameClash(c, db)
    ensures NoInvalid(c) ==> NoInvalid(c1)
  {
    forall db <- listed
      ensures Snapshot(c1)[db.name] == dbs1[db.name] <==> !QuotedNameClash(c, db)
      ensures NoInvalid(c) ==> !c1.dbs[db.name].invalid
    {
      ListedAgrees(c, db, dbs1, c1);
    }
    forall n <- c1.dbs | forall db <- listed :: db.name != n
      ensures Snapshot(c1)[n] == dbs1[n]
      ensures NoInvalid(c) ==> !c1.dbs[n].invalid
    {
      assert UnlistedOutcome(Snapshot(c), c, n, dbs1, c1);
    }
  }

  /**
   After a successful phase the snapshot is what Postgres would report, and every listed
   database has its listed owner, exactly when no owner is named like a quoted listed owner.
   */
  lemma CreateAlterAgreesExactlyWhen(c: Catalog, listed: seq<ListedDb>)
    requires DistinctDbs(listed)
    requires ExecAll(c, CreateAlter(Snapshot(c), listed).cmds).1
    ensures var phase := CreateAlter(Snapshot(c), listed);
            var c1 := ExecAll(c, phase.cmds).0;
            && (Snapshot(c1) == phase.dbs <==> forall db <- listed :: !QuotedNameClash(c, db))
            && ((forall db <- listed :: HasOwner(c1.dbs, db)) <==> forall db <- listed :: !QuotedNameClash(c, db))
            && (NoInvalid(c) ==> NoInvalid(c1))
            && c1 == c.(dbs := c1.dbs)
            && forall db <- listed | db.name !in c.dbs :: db.name in c1.dbs && c1.dbs[db.name].granted
  {
    CreateAlterEffect(Snapshot(c), c, listed);
    var dbs1 := CreateAlter(Snapshot(c), listed).dbs;
    var c1 := ExecAll(c, CreateAlter(Snapshot(c), listed).cmds).0;
    ListAgrees(c, listed, dbs1, c1);
    forall db <- listed ensures HasOwner(c1.dbs, db) <==> !QuotedNameClash(c, db) {
      ListedAgrees(c, db, dbs1, c1);
    }
  }

  /** No role is named like the quoted form of a listed owner. */
  predicate NoQuotedOwner(roles: set<string>, listed: seq<ListedDb>) {
    forall db <- listed :: PgQuote(db.owner) !in roles
  }

  /** Owners are roles, so without such a role there is no clash. */
  lemma NoClash(c: Catalog, listed: seq<ListedDb>)
    requires WellFormed(c) && NoQuotedOwner(c.roles.Keys, listed)
    ensures forall db <- listed :: !QuotedNameClash(c, db)
  {
    forall db <- listed ensures !QuotedNameClash(c, db) {
      if db.name in c.dbs {
        assert RowWellFormed(c.roles.Keys, c.dbs[db.name]);
      }
    }
  }

  /** The phase succeeds exactly when every listed owner is an existing role, or clashes with one that owns the database. */
  lemma CreateAlterSucceedsExactlyWhen(c: Catalog, listed: seq<ListedDb>)
    requires DistinctDbs(listed) && WellFormed(c)
    ensures ExecAll(c, CreateAlter(Snapshot(c), listed).cmds).1 <==>
            forall db <- listed :: db.owner in c.roles || QuotedNameClash(c, db)
  {
    CreateAlterEffect(Snapshot(c), c, listed);
    forall db <- listed
      ensures (EmitsCommand(Snapshot(c), db) ==> db.owner in c.roles) <==> db.owner in c.roles || QuotedNameClash(c, db)
    {
      PgQuoteMarks(db.owner);
      if db.name in c.dbs {
        assert RowWellFormed(c.roles.Keys, c.dbs[db.name]);
      }
    }
  }

  /** Snapshot and catalog know the same databases and agree on which can be connected to. */
  ghost predicate SameFlags(dbs: Dbs, c: Catalog) {
    dbs.Keys == c.dbs.Keys &&
    forall n <- dbs :: dbs[n].restrictConn == c.dbs[n].restrictConn && dbs[n].invalid == c.dbs[n].invalid
  }

  /** Whatever the list, as long as no command fails. */
  lemma {:induction false} CreateAlterKeepsFlags(dbs: Dbs, c: Catalog, listed: seq<ListedDb>)
    requires SameFlags(dbs, c) && ExecAll(c, CreateAlter(dbs, listed).cmds).1
    ensures SameFlags(CreateAlter(dbs, listed).dbs, ExecAll(c, CreateAlter(dbs, listed).cmds).0)
    decreases |listed|
  {
    if listed != [] {
      var first := CreateAlterOne(dbs, listed[0]);
      ExecAllConcat(c, first.cmds, CreateAlter(first.dbs, listed[1..]).cmds);
      CreateAlterStep(dbs, c, listed[0]);
      var c1 := ExecAll(c, first.cmds).0;
      forall n <- first.dbs | n != listed[0].name
        ensures first.dbs[n].restrictConn == c1.dbs[n].restrictConn && first.dbs[n].invalid == c1.dbs[n].invalid
      {
        assert UnlistedOutcome(dbs, c, n, first.dbs, c1);
      }
      CreateAlterKeepsFlags(first.dbs, c1, listed[1..]);
    }
  }

  /** Applying the same list again emits nothing, exactly when no listed owner begins with a double quote. */
  lemma {:induction false} ReapplyDatabases(c: Catalog, listed: seq<ListedDb>)
    requires forall db <- listed :: HasOwner(c.dbs, db)
    ensures CreateAlter(Snapshot(c), listed).dbs == Snapshot(c)
    ensures CreateAlter(Snapshot(c), listed).cmds == [] <==> forall db <- listed :: !StartsWith(db.owner, "\"")
    decreases |listed|
  {
    if listed != [] {
      var db, rest := listed[0], listed[1..];
      assert forall other :: other in listed <==> other == db || other in rest;
      PgQuoteMarks(db.owner);
      assert HasOwner(c.dbs, db);
      assert Snapshot(c)[db.name].(owner := db.owner) == Snapshot(c)[db.name];
      assert CreateAlterOne(Snapshot(c), db).dbs == Snapshot(c);
      ReapplyDatabases(c, rest);
    }
  }

  // ----- CreateAndAlterRoles ------------------------------------------------------------

  type Verifiers = map<string, Option<string>>

  function RoleCommand(roles: Verifiers, jwksRoles: set<string>, role: Role): seq<Command> {
    if role.name in roles then
      if roles[role.name] != role.encryptedPassword then [AlterRole(role.name, StoredVerifier(role.encryptedPassword))]
      else []
    else
      [CreateRole(role.name, StoredVerifier(role.encryptedPassword), role.name !in jwksRoles)]
  }

  function RoleCommands(roles: Verifiers, jwksRoles: set<string>, listed: seq<Role>): seq<Command>
    decreases |listed|
  {
    if listed == [] then []
    else RoleCommand(roles, jwksRoles, listed[0]) + RoleCommands(roles, jwksRoles, listed[1..])
  }

  ghost predicate DistinctRoles(listed: seq<Role>) {
    forall i, j :: 0 <= i < j < |listed| ==> listed[i].name != listed[j].name
  }

  /** CREATE ROLE is sent for the roles the snapshot does not know. */
  predicate RoleFits(roles: Verifiers, c: Catalog, role: Role) {
    role.name in c.roles ==> role.name in roles
  }

  /** What Postgres is to hold for a listed password: nothing, the SCRAM verifier itself, or the marked md5 hash. */
  predicate VerifierFor(password: Option<string>, verifier: Option<string>) {
    match password
    case None => verifier == None
    case Some(pass) => verifier == Some(if "SCRAM-SHA-256" <= pass then pass else "md5" + pass)
  }

  /** A listed role that already held the very text of its password keeps it; any other holds what its password asks for. */
  predicate RoleSettled(before: Verifiers, after: Verifiers, role: Role) {
    && role.name in after
    && if role.name in before && before[role.name] == role.encryptedPassword then after[role.name] == before[role.name]
       else VerifierFor(role.encryptedPassword, after[role.name])
  }

  lemma RoleStep(roles: Verifiers, jwksRoles: set<string>, c: Catalog, role: Role)
    requires role.name in roles ==> role.name in c.roles && c.roles[role.name] == roles[role.name]
    ensures var (c1, ok) := ExecAll(c, RoleCommand(roles, jwksRoles, role));
            && (ok <==> RoleFits(roles, c, role))
            && (ok ==> RolesOutcome(jwksRoles, c, [role], c1))
            && (!ok ==> c1 == c)
  {
    assert role in [role] && RoleNames([role]) == {role.name};
  }

  function RoleNames(listed: seq<Role>): set<string> {
    set r | r in listed :: r.name
  }

  /**
   Every listed role exists with its listed verifier, the new ones are privileged unless they log
   in by JWT, and nothing else has changed.
   */
  ghost predicate RolesOutcome(jwksRoles: set<string>, c: Catalog, listed: seq<Role>, c1: Catalog) {
    && (forall r <- listed :: RoleSettled(c.roles, c1.roles, r))
    && c1.roles.Keys == c.roles.Keys + RoleNames(listed)
    && (forall n <- c.roles | n !in RoleNames(listed) :: c1.roles[n] == c.roles[n])
    && NewPrivileged(jwksRoles, c, listed, c1)
    && (forall n | n in c.roles || n !in RoleNames(listed) :: n in c1.privileged <==> n in c.privileged)
    && c1 == c.(roles := c1.roles, privileged := c1.privileged)
  }

  ghost predicate NewPrivileged(jwksRoles: set<string>, c: Catalog, listed: seq<Role>, c1: Catalog) {
    forall r <- listed | r.name !in c.roles :: r.name in c1.privileged <==> r.name !in jwksRoles
  }

  lemma RoleNamesCons(listed: seq<Role>)
    requires listed != [] && DistinctRoles(listed)
    ensures RoleNames(listed) == {listed[0].name} + RoleNames(listed[1..]) && listed[0].name !in RoleNames(listed[1..])
    ensures forall r :: r in listed <==> r == listed[0] || r in listed[1..]
    ensures forall r <- listed[1..] :: r.name != listed[0].name
  {
    assert forall r :: r in listed <==> r == listed[0] || r in listed[1..];
  }

  lemma RolesOutcomeCons(jwksRoles: set<string>, c: Catalog, listed: seq<Role>, c1: Catalog, c2: Catalog)
    requires listed != [] && DistinctRoles(listed)
    requires RolesOutcome(jwksRoles, c, [listed[0]], c1) && RolesOutcome(jwksRoles, c1, listed[1..], c2)
    ensures RolesOutcome(jwksRoles, c, listed, c2)
  {
    var role := listed[0];
    RoleNamesCons(listed);
    assert role in [role] && RoleNames([role]) == {role.name};
    assert role.name in c1.roles && c2.roles[role.name] == c1.roles[role.name];
  }

  /** The roles of the list that the snapshot knows are as the snapshot says. */
  predicate KnowsListed(roles: Verifiers, c: Catalog, listed: seq<Role>) {
    forall r <- listed :: r.name in roles ==> r.name in c.roles && c.roles[r.name] == roles[r.name]
  }

  /**
   The phase succeeds exactly when no listed role exists that the snapshot lacks, and then
   every listed role has its listed verifier and nothing else has changed.
   */
  lemma {:induction false} RolesConverge(roles: Verifiers, jwksRoles: set<string>, c: Catalog, listed: seq<Role>)
    requires DistinctRoles(listed) && KnowsListed(roles, c, listed)
    ensures var (c1, ok) := ExecAll(c, RoleCommands(roles, jwksRoles, listed));
            && (ok <==> forall r <- listed :: RoleFits(roles, c, r))
            && (ok ==> RolesOutcome(jwksRoles, c, listed, c1))
    decreases |listed|
  {
    if listed != [] {
      var role, rest := listed[0], listed[1..];
      var cmds := RoleCommand(roles, jwksRoles, role);
      ExecAllConcat(c, cmds, RoleCommands(roles, jwksRoles, rest));
      RoleStep(roles, jwksRoles, c, role);
      RoleNamesCons(listed);
      var (c1, ok) := ExecAll(c, cmds);
      RestStillKnown(roles, jwksRoles, c, role, c1, ok, rest);
      RolesConverge(roles, jwksRoles, c1, rest);
      if ok && ExecAll(c1, RoleCommands(roles, jwksRoles, rest)).1 {
        RolesOutcomeCons(jwksRoles, c, listed, c1, ExecAll(c1, RoleCommands(roles, jwksRoles, rest)).0);
      }
    }
  }

  lemma RestStillKnown(roles: Verifiers, jwksRoles: set<string>, c: Catalog, role: Role, c1: Catalog, ok: bool, rest: seq<Role>)
    requires if ok then RolesOutcome(jwksRoles, c, [role], c1) else c1 == c
    requires KnowsListed(roles, c, rest) && forall r <- rest :: r.name != role.name
    ensures KnowsListed(roles, c1, rest)
    ensures (forall r <- rest :: RoleFits(roles, c1, r)) <==> forall r <- rest :: RoleFits(roles, c, r)
  {
    assert RoleNames([role]) == {role.name};
    forall r <- rest ensures r.name in c1.roles <==> r.name in c.roles {
    }
  }

  /** Whatever becomes of them, role commands touch nothing but roles. */
  lemma {:induction false} RoleCommandsKeepDbs(roles: Verifiers, jwksRoles: set<string>, c: Catalog, listed: seq<Role>)
    ensures var c1 := ExecAll(c, RoleCommands(roles, jwksRoles, listed)).0; c1 == c.(roles := c1.roles, privileged := c1.privileged)
    decreases |listed|
  {
    if listed != [] {
      var cmds := RoleCommand(roles, jwksRoles, listed[0]);
      ExecAllConcat(c, cmds, RoleCommands(roles, jwksRoles, listed[1..]));
      RoleCommandKeepsDbs(roles, jwksRoles, c, listed[0]);
      RoleCommandsKeepDbs(roles, jwksRoles, ExecAll(c, cmds).0, listed[1..]);
    }
  }

  lemma RoleCommandKeepsDbs(roles: Verifiers, jwksRoles: set<string>, c: Catalog, role: Role)
    ensures var c1 := ExecAll(c, RoleCommand(roles, jwksRoles, role)).0; c1 == c.(roles := c1.roles, privileged := c1.privileged)
  {
  }

  /** Applying the same roles again emits nothing, exactly when every password is a SCRAM verifier or absent. */
  lemma {:induction false} ReapplyRoles(jwksRoles: set<string>, c: Catalog, listed: seq<Role>)
    requires forall r <- listed :: r.name in c.roles && c.roles[r.name] == StoredVerifier(r.encryptedPassword)
    ensures RoleCommands(c.roles, jwksRoles, listed) == [] <==>
            forall r <- listed :: r.encryptedPassword.None? || StartsWith(r.encryptedPassword.value, "SCRAM-SHA-256")
    decreases |listed|
  {
    if listed != [] {
      var role, rest := listed[0], listed[1..];
      assert forall r :: r in listed <==> r == role || r in rest;
      ReapplyRoles(jwksRoles, c, rest);
      if role.encryptedPassword.Some? {
        assert |"md5" + role.encryptedPassword.value| == |role.encryptedPassword.value| + 3;
      }
    }
  }

  // ----- DropRoles -----------------------------------------------------------------------

  function DropRoleCommands(ops: seq<DeltaOp>): seq<Command>
    decreases |ops|
  {
    if ops == [] then []
    else (if ops[0].action == "delete_role" then [DropRoleIfExists(ops[0].name)] else []) + DropRoleCommands(ops[1..])
  }

  function DeletedRoles(ops: seq<DeltaOp>): set<string> {
    set op | op in ops && op.action == "delete_role" :: op.name
  }

  lemma DeletedRolesCons(ops: seq<DeltaOp>)
    requires ops != []
    ensures DeletedRoles(ops) ==
            (if ops[0].action == "delete_role" then {ops[0].name} else {}) + DeletedRoles(ops[1..])
  {
    assert forall o :: o in ops <==> o == ops[0] || o in ops[1..];
  }

  lemma DropRoleStep(c: Catalog, name: string)
    ensures var (c1, ok) := ExecAll(c, [DropRoleIfExists(name)]);
            && (ok <==> name in c.roles ==> OwnsNothing(name, c.dbs, c.templateObjects))
            && (ok ==> c1.roles == c.roles - {name} && c1 == c.(roles := c1.roles, privileged := c1.privileged))
            && (ok ==> forall n <- c1.roles :: n in c1.privileged <==> n in c.privileged)
  {
    assert name !in c.roles ==> c.roles - {name} == c.roles;
  }

  /** The roles go, and only they, exactly when none of them owns anything any more. */
  lemma {:induction false} DropRolesEffect(c: Catalog, ops: seq<DeltaOp>)
    ensures var (c1, ok) := ExecAll(c, DropRoleCommands(ops));
            && (ok <==> forall r <- DeletedRoles(ops) :: r in c.roles ==> OwnsNothing(r, c.dbs, c.templateObjects))
            && (ok ==> c1.roles == c.roles - DeletedRoles(ops) && c1 == c.(roles := c1.roles, privileged := c1.privileged))
            && (ok ==> forall n <- c1.roles :: n in c1.privileged <==> n in c.privileged)
    decreases |ops|
  {
    if ops == [] {
      assert c.roles - DeletedRoles(ops) == c.roles;
    } else {
      var op, rest := ops[0], ops[1..];
      DeletedRolesCons(ops);
      if op.action == "delete_role" {
        ExecAllConcat(c, [DropRoleIfExists(op.name)], DropRoleCommands(rest));
        DropRoleStep(c, op.name);
        var (c1, ok1) := ExecAll(c, [DropRoleIfExists(op.name)]);
        if ok1 {
          DropRolesEffect(c1, rest);
          assert c1.roles - DeletedRoles(rest) == c.roles - DeletedRoles(ops);
        }
      } else {
        assert DropRoleCommands(ops) == DropRoleCommands(rest);
        DropRolesEffect(c, rest);
      }
    }
  }
}
