/**
 The `RunInEachDatabase` phase: one task per listed database plus one for the system
 database, spawned together and running concurrently, each over its own connection.
 */
module PerDatabase {
  import opened Prelude
  import opened PgCatalog
  import opened SpecApply

  /** Commands that act inside one database. */
  datatype LocalCommand =
    | ReassignOwned(role: string, to: string)
    | RevokeGrants(role: string)            // pre_drop_role_revoke_privileges.sql
    | DropOwned(role: string)
    | SetPublicSchemaOwner(owner: string)   // set_public_schema_owner.sql
    | DefaultGrants                         // default_grants.sql
    | DropSubscriptions                     // drop_subscriptions.sql

  function Reassigned(objects: map<string, string>, role: string, to: string): map<string, string> {
    map o | o in objects :: if objects[o] == role then to else objects[o]
  }

  predicate BuiltinOwner(role: string) {
    role == "cloud_admin" || role == "zenith_admin"
  }

  /** What a command does inside the database it is sent to. */
  function ExecLocal(roles: set<string>, x: Inside, cmd: LocalCommand): Option<Inside> {
    match cmd
    case ReassignOwned(role, to) =>
      if role in roles && to in roles then Some(x.(objects := Reassigned(x.objects, role, to))) else None
    case RevokeGrants(role) => Some(x.(tableGrants := x.tableGrants - {role}))
    case DropOwned(role) =>
      if role in roles
      then Some(x.(objects := map o | o in x.objects && x.objects[o] != role :: x.objects[o]))
      else None
    case SetPublicSchemaOwner(owner) =>
      if "public" !in x.objects || !BuiltinOwner(x.objects["public"]) then Some(x)
      else if owner in roles then Some(x.(objects := x.objects["public" := owner]))
      else None
    case DefaultGrants => Some(if "public" in x.objects then x.(defaultGrants := true) else x)
    case DropSubscriptions => Some(x.(subs := {}))
  }

  /** One pipelined batch: later commands run even if an earlier one failed. */
  function ExecBatch(roles: set<string>, x: Inside, cmds: seq<LocalCommand>): (Inside, bool)
    decreases |cmds|
  {
    if cmds == [] then (x, true)
    else match ExecLocal(roles, x, cmds[0])
      case Some(x1) => ExecBatch(roles, x1, cmds[1..])
      case None => (ExecBatch(roles, x, cmds[1..]).0, false)
  }

  lemma {:induction false} ExecBatchConcat(roles: set<string>, x: Inside, a: seq<LocalCommand>, b: seq<LocalCommand>)
    ensures var (x1, ok1) := ExecBatch(roles, x, a);
            var (x2, ok2) := ExecBatch(roles, x1, b);
            ExecBatch(roles, x, a + b) == (x2, ok1 && ok2)
    decreases |a|
  {
    if a == [] {
      assert a + b == b;
    } else {
      assert (a + b)[1..] == a[1..] + b;
      match ExecLocal(roles, x, a[0]) {
        case Some(x1) => ExecBatchConcat(roles, x1, a[1..], b);
        case None => ExecBatchConcat(roles, x, a[1..], b);
      }
    }
  }

  // ----- what a task is given to do -----------------------------------------------

  datatype Db = SystemDb | UserDb(db: ListedDb)

  datatype SubPhase = DeleteDBRoleReferences | ChangeSchemaPerms | DropLogicalSubscriptions

  predicate IsOwnedBy(db: Db, role: string) {
    db.UserDb? && db.db.owner == role
  }

  function NewOwner(db: Db): string {
    if db.SystemDb? then "cloud_admin" else db.db.owner
  }

  /** The database exists and accepts connections, as far as the snapshot knows. */
  predicate Accessible(dbs: Dbs, db: Db) {
    db.UserDb? ==> db.db.name in dbs && !dbs[db.db.name].restrictConn && !dbs[db.db.name].invalid
  }

  predicate Cleans(roles: set<string>, db: Db, op: DeltaOp) {
    op.action == "delete_role" && !IsOwnedBy(db, op.name) && op.name in roles
  }

  function ReferenceCommands(roles: set<string>, db: Db, ops: seq<DeltaOp>): seq<LocalCommand>
    decreases |ops|
  {
    if ops == [] then []
    else
      (if Cleans(roles, db, ops[0])
       then [ReassignOwned(ops[0].name, NewOwner(db)), RevokeGrants(ops[0].name), DropOwned(ops[0].name)]
       else [])
      + ReferenceCommands(roles, db, ops[1..])
  }

  /** `get_operations` for `RunInEachDatabase`; `roles` are the roles in the snapshot. */
  function BatchFor(dbs: Dbs, roles: set<string>, ops: seq<DeltaOp>, db: Db, sub: SubPhase): seq<LocalCommand> {
    if !Accessible(dbs, db) then []
    else
      match sub
      case DeleteDBRoleReferences => ReferenceCommands(roles, db, ops)
      case ChangeSchemaPerms => if db.SystemDb? then [] else [SetPublicSchemaOwner(db.db.owner), DefaultGrants]
      case DropLogicalSubscriptions => if db.SystemDb? then [] else [DropSubscriptions]
  }

  function SubPhases(dropSubscriptions: bool): seq<SubPhase> {
    [DeleteDBRoleReferences, ChangeSchemaPerms] + (if dropSubscriptions then [DropLogicalSubscriptions] else [])
  }

  function Batches(dbs: Dbs, roles: set<string>, ops: seq<DeltaOp>, db: Db, subs: seq<SubPhase>): seq<seq<LocalCommand>> {
    seq(|subs|, i requires 0 <= i < |subs| => BatchFor(dbs, roles, ops, db, subs[i]))
  }

  /** `target` is the database the connection goes to, `todo` the batches that remain, the first one partly sent. */
  datatype Task = Task(target: string, todo: seq<seq<LocalCommand>>, failed: bool)

  // ----- one task on its own --------------------------------------------------------

  /** Batch after batch; a failed batch ends the task. */
  function RunBatches(roles: set<string>, x: Inside, todo: seq<seq<LocalCommand>>, failed: bool): (Inside, bool)
    decreases |todo|
  {
    if todo == [] then (x, failed)
    else
      var (x1, ok) := ExecBatch(roles, x, todo[0]);
      if failed || !ok then (x1, true) else RunBatches(roles, x1, todo[1..], false)
  }

  /** One command, or the end of a batch. */
  function LocalStep(roles: set<string>, x: Inside, t: Task): (Inside, Task) {
    if t.todo == [] then (x, t)
    else if t.todo[0] == [] then (x, t.(todo := if t.failed then [] else t.todo[1..]))
    else
      var next := t.(todo := [t.todo[0][1..]] + t.todo[1..]);
      match ExecLocal(roles, x, t.todo[0][0])
      case Some(x1) => (x1, next)
      case None => (x, next.(failed := true))
  }

  lemma LocalStepKeepsResult(roles: set<string>, x: Inside, t: Task)
    ensures var (x1, t1) := LocalStep(roles, x, t);
            && t1.target == t.target
            && RunBatches(roles, x1, t1.todo, t1.failed) == RunBatches(roles, x, t.todo, t.failed)
  {
    if t.todo != [] && t.todo[0] != [] {
      var t1 := LocalStep(roles, x, t).1;
      assert t1.todo[0] == t.todo[0][1..] && t1.todo[1..] == t.todo[1..];
    }
  }

  lemma LocalStepKeepsWellFormed(roles: set<string>, x: Inside, t: Task)
    requires InsideWellFormed(roles, x)
    ensures InsideWellFormed(roles, LocalStep(roles, x, t).0) && LocalStep(roles, x, t).0.subs <= x.subs
  {
  }

  /**
   REASSIGN OWNED also gives away the databases the role owns, whichever database it is sent
   from; this is the one effect of a task outside its own database.
   */
  function LocalMove(roles: set<string>, t: Task): Option<(string, string)> {
    if t.todo != [] && t.todo[0] != [] && t.todo[0][0].ReassignOwned? && t.todo[0][0].role in roles && t.todo[0][0].to in roles
    then Some((t.todo[0][0].role, t.todo[0][0].to)) else None
  }

  function Moved(owner: string, move: Option<(string, string)>): string {
    if move.Some? && owner == move.value.0 then move.value.1 else owner
  }

  // ----- all tasks together ------------------------------------------------------------

  datatype World = World(dbs: map<string, DbRow>, tasks: seq<Task>)

  ghost predicate Separate(w: World) {
    && (forall t <- w.tasks :: t.target in w.dbs)
    && (forall i, j :: 0 <= i < j < |w.tasks| ==> w.tasks[i].target != w.tasks[j].target)
  }

  predicate Finished(w: World) {
    forall t <- w.tasks :: t.todo == []
  }

  /** There is no such database: an empty batch asks for no connection, any other is refused. */
  function Refused(t: Task): Task {
    if t.todo == [] then t
    else if t.todo[0] == [] then t.(todo := if t.failed then [] else t.todo[1..])
    else t.(todo := [], failed := true)
  }

  /** Task `i` is scheduled for one step. */
  function WorldStep(roles: set<string>, w: World, i: nat): World
    requires i < |w.tasks|
  {
    var t := w.tasks[i];
    if t.target in w.dbs then
      var (x, t1) := LocalStep(roles, w.dbs[t.target].inside, t);
      World(Rows(w.dbs, t.target, x, LocalMove(roles, t)), w.tasks[i := t1])
    else
      World(w.dbs, w.tasks[i := Refused(t)])
  }

  function Rows(dbs: map<string, DbRow>, target: string, x: Inside, move: Option<(string, string)>): map<string, DbRow> {
    map n | n in dbs ::
      dbs[n].(owner := Moved(dbs[n].owner, move), inside := if n == target then x else dbs[n].inside)
  }

  /** The state after a schedule; numbers that name no task are idle turns. */
  function RunSchedule(roles: set<string>, w: World, schedule: seq<nat>): World
    decreases |schedule|
  {
    if schedule == [] then w
    else if schedule[0] < |w.tasks| then RunSchedule(roles, WorldStep(roles, w, schedule[0]), schedule[1..])
    else RunSchedule(roles, w, schedule[1..])
  }

  lemma {:induction false} RunScheduleConcat(roles: set<string>, w: World, a: seq<nat>, b: seq<nat>)
    ensures RunSchedule(roles, w, a + b) == RunSchedule(roles, RunSchedule(roles, w, a), b)
    decreases |a|
  {
    if a == [] {
      assert a + b == b;
    } else {
      assert (a + b)[1..] == a[1..] + b;
      RunScheduleConcat(roles, if a[0] < |w.tasks| then WorldStep(roles, w, a[0]) else w, a[1..], b);
    }
  }

  // ----- inside the databases the order does not matter ---------------------------------

  type Insides = map<string, Inside>

  function InsidesOf(dbs: map<string, DbRow>): Insides {
    map n | n in dbs :: dbs[n].inside
  }

  /** The reference: database after database, each task from start to end. */
  function OneByOne(roles: set<string>, xs: Insides, tasks: seq<Task>): Insides
    decreases |tasks|
  {
    if tasks == [] then xs
    else
      var t := tasks[0];
      if t.target in xs
      then OneByOne(roles, xs[t.target := RunAlone(roles, xs, t).0], tasks[1..])
      else OneByOne(roles, xs, tasks[1..])
  }

  function RunAlone(roles: set<string>, xs: Insides, t: Task): (Inside, bool)
    requires t.target in xs
  {
    RunBatches(roles, xs[t.target], t.todo, t.failed)
  }

  ghost predicate SeparateIn(xs: Insides, tasks: seq<Task>) {
    && (forall t <- tasks :: t.target in xs)
    && (forall i, j :: 0 <= i < j < |tasks| ==> tasks[i].target != tasks[j].target)
  }

  lemma SeparateRest(xs: Insides, tasks: seq<Task>, x: Inside)
    requires tasks != [] && SeparateIn(xs, tasks)
    ensures SeparateIn(xs[tasks[0].target := x], tasks[1..])
    ensures forall i :: 0 < i < |tasks| ==> tasks[1..][i - 1] == tasks[i]
  {
  }

  lemma {:induction false} OneByOneElsewhere(roles: set<string>, xs: Insides, tasks: seq<Task>, n: string)
    requires SeparateIn(xs, tasks) && n in xs && forall t <- tasks :: t.target != n
    ensures n in OneByOne(roles, xs, tasks) && OneByOne(roles, xs, tasks)[n] == xs[n]
    decreases |tasks|
  {
    if tasks != [] {
      var x := RunAlone(roles, xs, tasks[0]).0;
      SeparateRest(xs, tasks, x);
      OneByOneElsewhere(roles, xs[tasks[0].target := x], tasks[1..], n);
    }
  }

  lemma {:induction false} OneByOneAt(roles: set<string>, xs: Insides, tasks: seq<Task>, i: nat)
    requires SeparateIn(xs, tasks) && i < |tasks|
    ensures var n := tasks[i].target;
            n in OneByOne(roles, xs, tasks) && OneByOne(roles, xs, tasks)[n] == RunAlone(roles, xs, tasks[i]).0
    decreases |tasks|
  {
    var x := RunAlone(roles, xs, tasks[0]).0;
    SeparateRest(xs, tasks, x);
    if i == 0 {
      OneByOneElsewhere(roles, xs[tasks[0].target := x], tasks[1..], tasks[0].target);
    } else {
      OneByOneAt(roles, xs[tasks[0].target := x], tasks[1..], i - 1);
    }
  }

  lemma {:induction false} OneByOneKeys(roles: set<string>, xs: Insides, tasks: seq<Task>)
    requires SeparateIn(xs, tasks)
    ensures OneByOne(roles, xs, tasks).Keys == xs.Keys
    decreases |tasks|
  {
    if tasks != [] {
      var x := RunAlone(roles, xs, tasks[0]).0;
      SeparateRest(xs, tasks, x);
      OneByOneKeys(roles, xs[tasks[0].target := x], tasks[1..]);
    }
  }

  /** What every step keeps: where each task would end if it ran on alone. */
  ghost predicate SameOutcome(roles: set<string>, w: World, w1: World) {
    && w1.dbs.Keys == w.dbs.Keys && |w1.tasks| == |w.tasks|
    && (forall i :: 0 <= i < |w.tasks| ==> w1.tasks[i].target == w.tasks[i].target)
    && (forall n <- w.dbs | (forall t <- w.tasks :: t.target != n) :: w1.dbs[n].inside == w.dbs[n].inside)
    && (forall i :: 0 <= i < |w.tasks| && w.tasks[i].target in w.dbs ==>
          RunAlone(roles, InsidesOf(w1.dbs), w1.tasks[i]) == RunAlone(roles, InsidesOf(w.dbs), w.tasks[i]))
  }

  lemma WorldStepKeepsOutcome(roles: set<string>, w: World, i: nat)
    requires Separate(w) && i < |w.tasks|
    ensures SameOutcome(roles, w, WorldStep(roles, w, i)) && Separate(WorldStep(roles, w, i))
  {
    assert w.tasks[i] in w.tasks;
    LocalStepKeepsResult(roles, w.dbs[w.tasks[i].target].inside, w.tasks[i]);
  }

  lemma SameOutcomeTransitive(roles: set<string>, a: World, b: World, c: World)
    requires Separate(a) && SameOutcome(roles, a, b) && SameOutcome(roles, b, c)
    ensures SameOutcome(roles, a, c)
  {
    forall n <- a.dbs | forall t <- a.tasks :: t.target != n ensures c.dbs[n].inside == a.dbs[n].inside {
      assert forall t <- b.tasks :: t.target != n;
    }
  }

  lemma {:induction false} ScheduleKeepsOutcome(roles: set<string>, w: World, schedule: seq<nat>)
    requires Separate(w)
    ensures SameOutcome(roles, w, RunSchedule(roles, w, schedule))
    decreases |schedule|
  {
    if schedule != [] {
      if schedule[0] < |w.tasks| {
        WorldStepKeepsOutcome(roles, w, schedule[0]);
        var w1 := WorldStep(roles, w, schedule[0]);
        ScheduleKeepsOutcome(roles, w1, schedule[1..]);
        SameOutcomeTransitive(roles, w, w1, RunSchedule(roles, w, schedule));
      } else {
        ScheduleKeepsOutcome(roles, w, schedule[1..]);
      }
    }
  }

  lemma FinishedAlone(roles: set<string>, w: World, w1: World, i: nat)
    requires Separate(w) && SameOutcome(roles, w, w1) && Finished(w1) && i < |w.tasks|
    ensures w.tasks[i].target in w.dbs
    ensures RunAlone(roles, InsidesOf(w.dbs), w.tasks[i]) == (w1.dbs[w.tasks[i].target].inside, w1.tasks[i].failed)
  {
    assert w.tasks[i] in w.tasks && w1.tasks[i] in w1.tasks;
    assert w1.tasks[i].todo == [];
  }

  /**
   However the tasks interleave, once they are all done the insides of the databases are as
   if the tasks had run one after another, and a task has failed exactly when it fails alone.
   */
  lemma InterleavingDoesNotMatter(roles: set<string>, w: World, schedule: seq<nat>)
    requires Separate(w) && Finished(RunSchedule(roles, w, schedule))
    ensures var w1 := RunSchedule(roles, w, schedule);
            && InsidesOf(w1.dbs) == OneByOne(roles, InsidesOf(w.dbs), w.tasks)
            && |w1.tasks| == |w.tasks|
            && forall i :: 0 <= i < |w.tasks| ==>
                 w.tasks[i].target in w.dbs && w1.tasks[i].failed == RunAlone(roles, InsidesOf(w.dbs), w.tasks[i]).1
  {
    var w1, xs := RunSchedule(roles, w, schedule), InsidesOf(w.dbs);
    ScheduleKeepsOutcome(roles, w, schedule);
    assert SeparateIn(xs, w.tasks);
    OneByOneKeys(roles, xs, w.tasks);
    forall i: nat | i < |w.tasks|
      ensures w.tasks[i].target in w.dbs
      ensures RunAlone(roles, xs, w.tasks[i]) == (w1.dbs[w.tasks[i].target].inside, w1.tasks[i].failed)
    {
      FinishedAlone(roles, w, w1, i);
    }
    forall n <- w.dbs ensures w1.dbs[n].inside == OneByOne(roles, xs, w.tasks)[n] {
      if i: nat :| i < |w.tasks| && w.tasks[i].target == n {
        OneByOneAt(roles, xs, w.tasks, i);
      } else {
        OneByOneElsewhere(roles, xs, w.tasks, n);
      }
    }
  }

  // ----- what the tasks achieve -----------------------------------------------------------

  /** The deleted roles whose belongings are cleaned up in `db`. */
  function CleanedRoles(roles: set<string>, db: Db, ops: seq<DeltaOp>): set<string> {
    set op | op in ops && Cleans(roles, db, op) :: op.name
  }

  /** Every object of a role in `gone` now belongs to `to`; no object is lost. */
  function Reowned(objects: map<string, string>, gone: set<string>, to: string): map<string, string> {
    map o | o in objects :: if objects[o] in gone then to else objects[o]
  }

  lemma CleanOneRole(roles: set<string>, x: Inside, role: string, to: string)
    requires role in roles && to in roles && role != to
    ensures ExecBatch(roles, x, [ReassignOwned(role, to), RevokeGrants(role), DropOwned(role)])
            == (x.(objects := Reowned(x.objects, {role}, to), tableGrants := x.tableGrants - {role}), true)
  {
    var x1 := x.(objects := Reassigned(x.objects, role, to));
    assert ExecLocal(roles, x, ReassignOwned(role, to)) == Some(x1);
    ExecBatchConcat(roles, x, [ReassignOwned(role, to)], [RevokeGrants(role), DropOwned(role)]);
    ExecBatchConcat(roles, x1, [RevokeGrants(role)], [DropOwned(role)]);
    assert [RevokeGrants(role)] + [DropOwned(role)] == [RevokeGrants(role), DropOwned(role)];
    assert [ReassignOwned(role, to)] + [RevokeGrants(role), DropOwned(role)]
        == [ReassignOwned(role, to), RevokeGrants(role), DropOwned(role)];
    assert Reassigned(x.objects, role, to) == Reowned(x.objects, {role}, to);
    assert (map o | o in x1.objects && x1.objects[o] != role :: x1.objects[o]) == x1.objects;
  }

  /**
   Because commands are pipelined, DROP OWNED runs even when REASSIGN OWNED failed: the
   objects survive exactly when the new owner exists or there was nothing to reassign.
   */
  lemma CleanOneRoleKeepsObjectsExactlyWhen(roles: set<string>, x: Inside, role: string, to: string)
    requires role in roles && role != to
    ensures ExecBatch(roles, x, [ReassignOwned(role, to), RevokeGrants(role), DropOwned(role)]).0.objects.Keys
              == x.objects.Keys
            <==> to in roles || forall o <- x.objects :: x.objects[o] != role
  {
    if to in roles {
      CleanOneRole(roles, x, role, to);
    } else {
      var kept := map o | o in x.objects && x.objects[o] != role :: x.objects[o];
      ExecBatchConcat(roles, x, [ReassignOwned(role, to)], [RevokeGrants(role), DropOwned(role)]);
      ExecBatchConcat(roles, x, [RevokeGrants(role)], [DropOwned(role)]);
      assert [RevokeGrants(role)] + [DropOwned(role)] == [RevokeGrants(role), DropOwned(role)];
      assert [ReassignOwned(role, to)] + [RevokeGrants(role), DropOwned(role)]
          == [ReassignOwned(role, to), RevokeGrants(role), DropOwned(role)];
      assert ExecBatch(roles, x, [DropOwned(role)]) == (x.(objects := kept), true);
      forall o <- x.objects ensures o in kept <==> x.objects[o] != role {
      }
    }
  }

  lemma CleanedRolesCons(roles: set<string>, db: Db, ops: seq<DeltaOp>)
    requires ops != []
    ensures CleanedRoles(roles, db, ops) ==
            (if Cleans(roles, db, ops[0]) then {ops[0].name} else {}) + CleanedRoles(roles, db, ops[1..])
  {
    assert forall o :: o in ops <==> o == ops[0] || o in ops[1..];
  }

  lemma ReownedTwice(objects: map<string, string>, role: string, gone: set<string>, to: string)
    ensures Reowned(Reowned(objects, {role}, to), gone, to) == Reowned(objects, {role} + gone, to)
  {
  }

  /** What the roles in `gone` had now belongs to `to`, and what they were granted is revoked. */
  function Handed(x: Inside, gone: set<string>, to: string): Inside {
    x.(objects := Reowned(x.objects, gone, to), tableGrants := x.tableGrants - gone)
  }

  lemma HandedTwice(x: Inside, role: string, gone: set<string>, to: string)
    ensures Handed(Handed(x, {role}, to), gone, to) == Handed(x, {role} + gone, to)
  {
    ReownedTwice(x.objects, role, gone, to);
    assert x.tableGrants - {role} - gone == x.tableGrants - ({role} + gone);
  }

  /** `live` are the roles Postgres has, `roles` those in the snapshot. */
  lemma {:induction false} ReferencesEffect(live: set<string>, roles: set<string>, x: Inside, db: Db, ops: seq<DeltaOp>)
    requires roles <= live && NewOwner(db) in live && NewOwner(db) !in CleanedRoles(roles, db, ops)
    ensures ExecBatch(live, x, ReferenceCommands(roles, db, ops))
            == (Handed(x, CleanedRoles(roles, db, ops), NewOwner(db)), true)
    decreases |ops|
  {
    if ops == [] {
      assert Reowned(x.objects, CleanedRoles(roles, db, ops), NewOwner(db)) == x.objects;
      assert x.tableGrants - CleanedRoles(roles, db, ops) == x.tableGrants;
    } else {
      var op, rest, to := ops[0], ops[1..], NewOwner(db);
      CleanedRolesCons(roles, db, ops);
      if Cleans(roles, db, op) {
        var cmds := [ReassignOwned(op.name, to), RevokeGrants(op.name), DropOwned(op.name)];
        ExecBatchConcat(live, x, cmds, ReferenceCommands(roles, db, rest));
        CleanOneRole(live, x, op.name, to);
        ReferencesEffect(live, roles, Handed(x, {op.name}, to), db, rest);
        HandedTwice(x, op.name, CleanedRoles(roles, db, rest), to);
      } else {
        assert ReferenceCommands(roles, db, ops) == ReferenceCommands(roles, db, rest);
        assert CleanedRoles(roles, db, ops) == CleanedRoles(roles, db, rest);
        ReferencesEffect(live, roles, x, db, rest);
      }
    }
  }

  /** The public schema leaves the built-in owners for the owner of the database. */
  function WithPublicOwner(objects: map<string, string>, owner: string): map<string, string> {
    if "public" in objects && BuiltinOwner(objects["public"]) then objects["public" := owner] else objects
  }

  /** The public schema still belongs to a built-in owner that is not the owner of the database. */
  predicate BuiltinLeft(x: Inside, owner: string) {
    "public" in x.objects && BuiltinOwner(x.objects["public"]) && x.objects["public"] != owner
  }

  function CleanedUp(x: Inside, gone: set<string>, db: Db, dropSubscriptions: bool): Inside {
    var x1 := Handed(x, gone, NewOwner(db));
    if db.SystemDb? then x1
    else
      x1.(objects := WithPublicOwner(x1.objects, db.db.owner), subs := if dropSubscriptions then {} else x.subs,
          defaultGrants := x.defaultGrants || "public" in x.objects)
  }

  /** A task never fails on a database whose owner exists, and leaves it cleaned up. */
  lemma TaskEffect(live: set<string>, dbs: Dbs, roles: set<string>, x: Inside, db: Db, ops: seq<DeltaOp>, drop: bool)
    requires Accessible(dbs, db)
    requires roles <= live && NewOwner(db) in live && NewOwner(db) !in CleanedRoles(roles, db, ops)
    ensures RunBatches(live, x, Batches(dbs, roles, ops, db, SubPhases(drop)), false)
            == (CleanedUp(x, CleanedRoles(roles, db, ops), db, drop), false)
  {
    ReferencesEffect(live, roles, x, db, ops);
    var todo := Batches(dbs, roles, ops, db, SubPhases(drop));
    var x1 := ExecBatch(live, x, todo[0]).0;
    assert todo[1..][0] == todo[1];
    var perms := BatchFor(dbs, roles, ops, db, ChangeSchemaPerms);
    var x2 := if db.SystemDb? then x1
              else x1.(objects := WithPublicOwner(x1.objects, db.db.owner),
                       defaultGrants := x.defaultGrants || "public" in x.objects);
    assert ExecBatch(live, x1, perms) == (x2, true) by {
      if db.UserDb? {
        ExecBatchConcat(live, x1, [SetPublicSchemaOwner(db.db.owner)], [DefaultGrants]);
        assert [SetPublicSchemaOwner(db.db.owner)] + [DefaultGrants] == perms;
      }
    }
    assert RunBatches(live, x, todo, false) == RunBatches(live, x2, todo[1..][1..], false);
    if drop {
      var last := BatchFor(dbs, roles, ops, db, DropLogicalSubscriptions);
      var x3 := if db.SystemDb? then x2 else x2.(subs := {});
      assert todo[1..][1..] == [last];
      assert ExecBatch(live, x2, last) == (x3, true);
      assert [last][0] == last && [last][1..] == [];
      assert RunBatches(live, x2, [last], false) == RunBatches(live, x3, [], false);
    } else {
      assert todo[1..][1..] == [];
      assert db.UserDb? ==> x2.(subs := x.subs) == x2;
    }
  }

  /** A database that cannot be connected to is left alone. */
  lemma InaccessibleTask(live: set<string>, dbs: Dbs, roles: set<string>, x: Inside, db: Db, ops: seq<DeltaOp>, drop: bool)
    requires !Accessible(dbs, db)
    ensures RunBatches(live, x, Batches(dbs, roles, ops, db, SubPhases(drop)), false) == (x, false)
  {
    EmptyBatches(live, x, Batches(dbs, roles, ops, db, SubPhases(drop)));
  }

  lemma {:induction false} EmptyBatches(live: set<string>, x: Inside, todo: seq<seq<LocalCommand>>)
    requires forall i :: 0 <= i < |todo| ==> todo[i] == []
    ensures RunBatches(live, x, todo, false) == (x, false)
    decreases |todo|
  {
    if todo != [] {
      EmptyBatches(live, x, todo[1..]);
    }
  }

  /**
   Afterwards the deleted roles own nothing here and hold no privileges from others, every object
   is still here, its owner unchanged or the new one, and the public schema is the owner's.
   */
  lemma CleanedUpMeans(live: set<string>, x: Inside, roles: set<string>, db: Db, ops: seq<DeltaOp>, drop: bool)
    requires InsideWellFormed(live, x) && NewOwner(db) in live
    requires NewOwner(db) !in CleanedRoles(roles, db, ops)
    ensures var x1 := CleanedUp(x, CleanedRoles(roles, db, ops), db, drop);
            && x1.objects.Keys == x.objects.Keys
            && (forall o <- x.objects :: x1.objects[o] == x.objects[o] || x1.objects[o] == NewOwner(db))
            && (forall o <- x.objects :: x1.objects[o] !in CleanedRoles(roles, db, ops))
            && InsideWellFormed(live, x1)
            && x1.tableGrants == x.tableGrants - CleanedRoles(roles, db, ops)
            && (db.UserDb? && "public" in x.objects ==> x1.defaultGrants && !BuiltinLeft(x1, db.db.owner))
  {
    ReownedMeans(x.objects, CleanedRoles(roles, db, ops), NewOwner(db));
  }

  lemma ReownedMeans(objects: map<string, string>, gone: set<string>, to: string)
    requires to !in gone
    ensures var objects1 := Reowned(objects, gone, to);
            && objects1.Keys == objects.Keys
            && forall o <- objects :: (objects1[o] == objects[o] || objects1[o] == to) && objects1[o] !in gone
  {
  }
}
