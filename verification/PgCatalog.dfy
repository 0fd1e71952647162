/**
 An abstract Postgres cluster and what the commands emitted by `spec_apply.rs` do to it.

 A command either fails and changes nothing or succeeds and changes the catalog as
 Postgres documents it.  Privileges, extensions and cluster-wide shared objects other
 than databases and roles are not represented.
 */
module PgCatalog {
  import opened Prelude

  /**
   What lives inside a database: objects with their owning roles, subscriptions by object id, the
   roles that somebody else granted privileges on tables, and whether the default privileges of
   the public schema are set.
   */
  datatype Inside = Inside(objects: map<string, string>, subs: set<nat>, tableGrants: set<string>, defaultGrants: bool)

  const NO_INSIDE: Inside := Inside(map[], {}, {}, false)

  /**
   A row of pg_database together with what lives inside that database; `granted` tells whether
   the privileged role has been given all privileges on it.
   */
  datatype DbRow = DbRow(owner: string, restrictConn: bool, invalid: bool, template: bool, granted: bool, inside: Inside)

  /**
   `roles` maps each role to its stored verifier, `privileged` are those created as members of
   the privileged role, `templateObjects` is what a new database starts with, `record` is the
   timeline in `neon.drop_subscriptions_done`.
   */
  datatype Catalog = Catalog(
    dbs: map<string, DbRow>,
    roles: map<string, Option<string>>,
    privileged: set<string>,
    templateObjects: map<string, string>,
    record: Option<string>)

  datatype Command =
    | DropDatabaseIfExists(name: string)
    | UnsetTemplateIfExists(name: string)
    | RenameDatabase(name: string, newName: string)
    | AlterDatabaseOwner(name: string, owner: string)
    | CreateDatabase(name: string, owner: string)
    | GrantOnDatabase(name: string)
    | CreateRole(name: string, verifier: Option<string>, privileged: bool)
    | CreateRoleIfMissing(name: string)
    | AlterRole(name: string, verifier: Option<string>)
    | DropRoleIfExists(name: string)
    | RecordDrop(timeline: string)  // finalize_drop_subscriptions.sql

  predicate Droppable(row: DbRow) {
    !row.template && row.inside.subs == {}
  }

  predicate OwnsNoObject(role: string, x: Inside) {
    forall o <- x.objects :: x.objects[o] != role
  }

  predicate OwnsNothingIn(role: string, row: DbRow) {
    row.owner != role && OwnsNoObject(role, row.inside)
  }

  /** A database as CREATE DATABASE makes it: subscriptions are not copied. */
  function NewRow(owner: string, templateObjects: map<string, string>): DbRow {
    DbRow(owner, false, false, false, false, Inside(templateObjects, {}, {}, false))
  }

  predicate OwnsNothing(role: string, dbs: map<string, DbRow>, templateObjects: map<string, string>) {
    && (forall n <- dbs :: OwnsNothingIn(role, dbs[n]))
    && (forall o <- templateObjects :: templateObjects[o] != role)
  }

  function Exec(c: Catalog, cmd: Command): Option<Catalog> {
    match cmd
    case DropDatabaseIfExists(n) =>
      if n !in c.dbs then Some(c)
      else if Droppable(c.dbs[n]) then Some(c.(dbs := c.dbs - {n}))
      else None
    case UnsetTemplateIfExists(n) =>
      if n !in c.dbs then Some(c)
      else if c.dbs[n].invalid then None
      else Some(c.(dbs := c.dbs[n := c.dbs[n].(template := false)]))
    case RenameDatabase(n, m) =>
      if n in c.dbs && m !in c.dbs then Some(c.(dbs := (c.dbs - {n})[m := c.dbs[n]])) else None
    case AlterDatabaseOwner(n, o) =>
      if n in c.dbs && o in c.roles then Some(c.(dbs := c.dbs[n := c.dbs[n].(owner := o)])) else None
    case CreateDatabase(n, o) =>
      if n !in c.dbs && o in c.roles
      then Some(c.(dbs := c.dbs[n := NewRow(o, c.templateObjects)]))
      else None
    case GrantOnDatabase(n) =>
      if n in c.dbs then Some(c.(dbs := c.dbs[n := c.dbs[n].(granted := true)])) else None
    case CreateRole(n, v, privileged) =>
      if n !in c.roles
      then Some(c.(roles := c.roles[n := v], privileged := if privileged then c.privileged + {n} else c.privileged - {n}))
      else None
    case CreateRoleIfMissing(n) => Some(if n in c.roles then c else c.(roles := c.roles[n := None]))
    case AlterRole(n, v) => if n in c.roles then Some(c.(roles := c.roles[n := v])) else None
    case DropRoleIfExists(n) =>
      if n !in c.roles then Some(c)
      else if OwnsNothing(n, c.dbs, c.templateObjects)
      then Some(c.(roles := c.roles - {n}, privileged := c.privileged - {n}))
      else None
    case RecordDrop(t) => Some(c.(record := Some(t)))
  }

  /**
   The commands of one phase are pipelined: a failing command does not stop the later
   ones, it only fails the phase once all answers are in.
   */
  function ExecAll(c: Catalog, cmds: seq<Command>): (Catalog, bool)
    decreases |cmds|
  {
    if cmds == [] then (c, true)
    else match Exec(c, cmds[0])
      case Some(c1) => ExecAll(c1, cmds[1..])
      case None => (ExecAll(c, cmds[1..]).0, false)
  }

  lemma {:induction false} ExecAllConcat(c: Catalog, a: seq<Command>, b: seq<Command>)
    ensures var (c1, ok1) := ExecAll(c, a);
            var (c2, ok2) := ExecAll(c1, b);
            ExecAll(c, a + b) == (c2, ok1 && ok2)
    decreases |a|
  {
    if a == [] {
      assert a + b == b;
    } else {
      assert (a + b)[1..] == a[1..] + b;
      match Exec(c, a[0]) {
        case Some(c1) => ExecAllConcat(c1, a[1..], b);
        case None => ExecAllConcat(c, a[1..], b);
      }
    }
  }

  // ----- referential integrity ---------------------------------------------------

  predicate InsideWellFormed(roles: set<string>, x: Inside) {
    forall o <- x.objects :: x.objects[o] in roles
  }

  predicate RowWellFormed(roles: set<string>, row: DbRow) {
    row.owner in roles && InsideWellFormed(roles, row.inside)
  }

  predicate RowsWellFormed(roles: set<string>, dbs: map<string, DbRow>) {
    forall n <- dbs :: RowWellFormed(roles, dbs[n])
  }

  /** Every owner is an existing role. */
  predicate WellFormed(c: Catalog) {
    && RowsWellFormed(c.roles.Keys, c.dbs)
    && (forall o <- c.templateObjects :: c.templateObjects[o] in c.roles)
  }

  lemma ExecKeepsWellFormed(c: Catalog, cmd: Command)
    requires WellFormed(c)
    ensures Exec(c, cmd).Some? ==> WellFormed(Exec(c, cmd).value)
  {
  }

  lemma {:induction false} ExecAllKeepsWellFormed(c: Catalog, cmds: seq<Command>)
    requires WellFormed(c)
    ensures WellFormed(ExecAll(c, cmds).0)
    decreases |cmds|
  {
    if cmds != [] {
      ExecKeepsWellFormed(c, cmds[0]);
      match Exec(c, cmds[0]) {
        case Some(c1) => ExecAllKeepsWellFormed(c1, cmds[1..]);
        case None => ExecAllKeepsWellFormed(c, cmds[1..]);
      }
    }
  }

  // ----- subscriptions and their record -------------------------------------------

  /** Every subscription of the cluster. */
  function AllSubs(c: Catalog): set<nat> {
    set n, sub | n in c.dbs && sub in c.dbs[n].inside.subs :: sub
  }

  /** No command creates or loses a subscription, and only one writes the record. */
  lemma ExecKeepsSubs(c: Catalog, cmd: Command)
    requires Exec(c, cmd).Some?
    ensures AllSubs(Exec(c, cmd).value) == AllSubs(c)
    ensures !cmd.RecordDrop? ==> Exec(c, cmd).value.record == c.record
  {
    var c1 := Exec(c, cmd).value;
    match cmd
    case DropDatabaseIfExists(n) => KeptRows(c, c1, n);
    case UnsetTemplateIfExists(n) => KeptRows(c, c1, n);
    case RenameDatabase(n, m) => MovedRow(c, c1, n, m);
    case AlterDatabaseOwner(n, _) => KeptRows(c, c1, n);
    case GrantOnDatabase(n) => KeptRows(c, c1, n);
    case CreateDatabase(n, _) => KeptRows(c, c1, n);
    case _ =>
  }

  lemma MovedRow(c: Catalog, c1: Catalog, n: string, m: string)
    requires n in c.dbs && m !in c.dbs && c1.dbs == (c.dbs - {n})[m := c.dbs[n]]
    ensures AllSubs(c1) == AllSubs(c)
  {
    forall sub <- AllSubs(c) ensures sub in AllSubs(c1) {
      var x :| x in c.dbs && sub in c.dbs[x].inside.subs;
      assert sub in c1.dbs[if x == n then m else x].inside.subs;
    }
  }

  lemma KeptRows(c: Catalog, c1: Catalog, n: string)
    requires forall m | m != n :: (m in c1.dbs <==> m in c.dbs) && (m in c.dbs ==> c1.dbs[m] == c.dbs[m])
    requires (if n in c.dbs then c.dbs[n].inside.subs else {}) == (if n in c1.dbs then c1.dbs[n].inside.subs else {})
    ensures AllSubs(c1) == AllSubs(c)
  {
  }

  predicate WritesRecord(cmds: seq<Command>) {
    exists cmd <- cmds :: cmd.RecordDrop?
  }

  lemma {:induction false} ExecAllKeepsSubs(c: Catalog, cmds: seq<Command>)
    requires !WritesRecord(cmds)
    ensures AllSubs(ExecAll(c, cmds).0) == AllSubs(c) && ExecAll(c, cmds).0.record == c.record
    decreases |cmds|
  {
    if cmds != [] {
      assert cmds[0] in cmds;
      match Exec(c, cmds[0]) {
        case Some(c1) =>
          ExecKeepsSubs(c, cmds[0]);
          ExecAllKeepsSubs(c1, cmds[1..]);
        case None => ExecAllKeepsSubs(c, cmds[1..]);
      }
    }
  }
}
