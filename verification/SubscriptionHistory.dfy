/**
 Dropping inherited subscriptions once per branch, over every history of overlapping applies,
 of users at work and of branching.
 */
module SubscriptionHistory {
  import opened Prelude
  import opened PgText
  import opened PgCatalog
  import opened SpecApply
  import opened PerDatabase
  import opened DatabaseOwners
  import opened ApplyStages
  import opened DropSubscriptions
  import opened Flights

  predicate Holds(s: Cluster, db: string, sub: nat) {
    db in s.c.dbs && sub in s.c.dbs[db].inside.subs
  }

  /** Nobody drops or moves the subscription on purpose, and the timeline stays. */
  predicate LeavesAlone(e: Event, db: string, sub: nat) {
    match e
    case Begin(_, spec) => Spares(spec.deltaOperations, db)
    case UserActs(c) => db in c.dbs && sub in c.dbs[db].inside.subs
    case Branch(_) => false
    case _ => true
  }

  predicate AllLeaveAlone(es: seq<Event>, db: string, sub: nat) {
    forall i :: 0 <= i < |es| ==> LeavesAlone(es[i], db, sub)
  }

  // ----- when an apply in flight still has the drop ahead of it ------------------------------

  /** A command that fails as long as `db` holds a subscription, or in any case. */
  predicate Doomed(cmd: Command, db: string) {
    match cmd
    case DropDatabaseIfExists(n) => n == db
    case RenameDatabase(n, m) => m == db || n == m
    case CreateDatabase(n, _) => n == db
    case _ => false
  }

  predicate Undoomed(cmds: seq<Command>, db: string) {
    forall cmd <- cmds :: !Doomed(cmd, db)
  }

  /** A task that drops in `db` is spawned from such a snapshot. */
  predicate SpawnsDrop(dbs: Dbs, job: Job, db: string) {
    exists listed <- job.spec.databases :: listed.name == db && Accessible(dbs, UserDb(listed))
  }

  /** After phase `k`, no panic and no doomed command stands between the snapshot and that task. */
  predicate CanSpawn(k: nat, job: Job, roles: Verifiers, dbs: Dbs, db: string)
    decreases 6 - k
  {
    if k >= 6 then SpawnsDrop(dbs, job, db)
    else if k == 2 then db !in InvalidNames(dbs) && CanSpawn(3, job, roles, dbs - InvalidNames(dbs), db)
    else
      match Planned(k + 1, job, roles, dbs, true, [])
      case None => false
      case Some(phase) => Undoomed(phase.cmds, db) && CanSpawn(k + 1, job, roles, phase.dbs, db)
  }

  predicate TaskAhead(f: Flight, db: string) {
    exists i :: 0 <= i < |f.tasks| && f.tasks[i].target == db && DropsYet(f.tasks[i])
  }

  /** It has read the record as absent and can still get to its tasks. */
  predicate SpawnAhead(f: Flight, db: string) {
    && f.alive && f.drop && 1 <= f.stage <= 6 && !f.failed
    && Undoomed(f.cmds, db) && CanSpawn(f.stage, f.job, f.roles, f.dbs, db)
  }

  predicate Threatens(f: Flight, db: string) {
    TaskAhead(f, db) || SpawnAhead(f, db)
  }

  // ----- the threat does not come back -----------------------------------------------------------

  lemma DoomedFails(c: Catalog, cmd: Command, db: string)
    requires db in c.dbs && c.dbs[db].inside.subs != {} && Doomed(cmd, db)
    ensures Exec(c, cmd).None?
  {
  }

  /** A database that holds a subscription stays where it is unless it is renamed. */
  lemma ExecKeepsDb(c: Catalog, cmd: Command, db: string)
    requires db in c.dbs && c.dbs[db].inside.subs != {} && (cmd.RenameDatabase? ==> cmd.name != db)
    ensures Exec(c, cmd).Some? ==>
              && db in Exec(c, cmd).value.dbs
              && Exec(c, cmd).value.dbs[db].inside == c.dbs[db].inside
              && Exec(c, cmd).value.dbs[db].invalid == c.dbs[db].invalid
  {
  }

  lemma SparedNeverNamed(f: Flight, db: string)
    requires Spares(f.job.spec.deltaOperations, db)
    ensures !Renames(f.job.spec.deltaOperations, db) && !Deletes(f.job.spec.deltaOperations, db)
  {
  }

  lemma FirstSafe(f: Flight, c: Catalog, db: string)
    requires f.stage == 0 && Spares(f.job.spec.deltaOperations, db) && c.record == Some(f.job.timeline)
    ensures !Threatens(Entered(f, c, []), db) && forall names :: Entered(f, c, names) == Entered(f, c, [])
  {
    PreDropsFit(f.dbs, f.job.spec.deltaOperations);
    SparedNeverNamed(f, db);
  }

  lemma SpawnedDrops(f: Flight, db: string, i: nat)
    requires var tasks := TasksOf(f.dbs, f.roles.Keys, f.job, f.drop);
             i < |tasks| && tasks[i].target == db && DropsYet(tasks[i])
    ensures f.drop && SpawnsDrop(f.dbs, f.job, db)
  {
    SpawnedIsTaskOf(f.dbs, f.roles.Keys, f.job, f.drop, i);
    SpawnedHasDrop(f.dbs, f.roles.Keys, f.job, f.drop, SpawnedFor(f.job, i));
  }

  lemma PhaseSafe(f: Flight, names: seq<string>, db: string)
    requires 1 <= f.stage < 6 && f.cmds == [] && f.alive && !f.failed && !SpawnAhead(f, db)
    requires PlannedFor(f, names).Some? && forall n <- InvalidNames(f.dbs) :: n in names
    ensures var phase := PlannedFor(f, names).value;
            !SpawnAhead(f.(stage := f.stage + 1, dbs := phase.dbs, cmds := phase.cmds, tasks := []), db)
  {
    if f.stage == 2 && db in InvalidNames(f.dbs) {
      var i: nat :| i < |names| && names[i] == db;
      var cmds := Drops(names);
      assert cmds[i] in cmds && Doomed(cmds[i], db);
    }
  }

  lemma EnterSafe(f: Flight, c: Catalog, names: seq<string>, db: string)
    requires Settled(f) && f.alive && !Broken(f) && !Threatens(f, db) && Spares(f.job.spec.deltaOperations, db)
    requires c.record == Some(f.job.timeline) && forall n <- InvalidNames(f.dbs) :: n in names
    ensures !Threatens(Entered(f, c, names), db)
  {
    if f.stage == 0 {
      FirstSafe(f, c, db);
    } else if f.stage == 6 {
      var f1 := Entered(f, c, names);
      if i: nat :| i < |f1.tasks| && f1.tasks[i].target == db && DropsYet(f1.tasks[i]) {
        SpawnedDrops(f, db, i);
      }
    } else if f.stage < 6 && PlannedFor(f, names).Some? {
      PhaseSafe(f, names, db);
    }
  }

  lemma SendSafe(c: Catalog, f: Flight, db: string)
    requires f.cmds != [] && !Threatens(f, db) && db in c.dbs && c.dbs[db].inside.subs != {}
    ensures var f1 := f.(cmds := f.cmds[1..]);
            !Threatens(f1.(failed := true), db) && (Exec(c, f.cmds[0]).Some? ==> !Threatens(f1, db))
  {
    if Doomed(f.cmds[0], db) {
      DoomedFails(c, f.cmds[0], db);
    }
    assert forall cmd <- f.cmds :: cmd == f.cmds[0] || cmd in f.cmds[1..];
  }

  lemma StepSafe(roles: set<string>, dbs: map<string, DbRow>, f: Flight, i: nat, db: string)
    requires i < |f.tasks| && !Threatens(f, db)
    ensures !Threatens(f.(tasks := WorldStep(roles, World(dbs, f.tasks), i).tasks), db)
  {
    var t := f.tasks[i];
    StepDropsYet(roles, if t.target in dbs then dbs[t.target].inside else NO_INSIDE, t);
  }

  /** Recorded, and no apply in flight has the drop ahead of it or deletes or renames the database. */
  ghost predicate Safe(s: Cluster, db: string) {
    && s.c.record == Some(s.timeline)
    && forall id <- s.applies :: !Threatens(s.applies[id], db) && Spares(s.applies[id].job.spec.deltaOperations, db)
  }

  lemma NextFlightSafe(s: Cluster, e: Event, db: string, sub: nat, id: nat)
    requires Inv(s) && Safe(s, db) && Holds(s, db, sub) && Enabled(s, e) && About(e, id)
    ensures var s1 := Next(s, e);
            id in s1.applies && !Threatens(s1.applies[id], db) && s1.applies[id].job == s.applies[id].job
  {
    var f := s.applies[id];
    NextFlightFits(s, e, id);
    match e
    case Enter(_, names) =>
      if !Broken(f) {
        EnterSafe(f, s.c, names, db);
      }
    case Send(_) => SendSafe(s.c, f, db);
    case Step(_, i) => StepSafe(s.c.roles.Keys, s.c.dbs, f, i, db);
    case _ =>
  }

  lemma NextHolds(s: Cluster, e: Event, db: string, sub: nat)
    requires Inv(s) && Safe(s, db) && Holds(s, db, sub) && Enabled(s, e) && LeavesAlone(e, db, sub)
    ensures Holds(Next(s, e), db, sub)
  {
    match e
    case Send(id) =>
      var f := s.applies[id];
      assert f.cmds[0] in f.cmds && CommandFits(f, f.cmds[0]);
      SparedNeverNamed(f, db);
      ExecKeepsDb(s.c, f.cmds[0], db);
    case Step(id, i) =>
      var f := s.applies[id];
      assert !Threatens(f, db);
      StepKeepsSubs(s.c.roles.Keys, World(s.c.dbs, f.tasks), i);
    case _ =>
  }

  lemma NextStaysSafe(s: Cluster, e: Event, db: string, sub: nat)
    requires Inv(s) && Safe(s, db) && Holds(s, db, sub) && Enabled(s, e) && LeavesAlone(e, db, sub)
    ensures Safe(Next(s, e), db) && Holds(Next(s, e), db, sub) && Next(s, e).timeline == s.timeline
  {
    var s1 := Next(s, e);
    NextHolds(s, e, db, sub);
    NextRecord(s, e);
    forall id <- s1.applies
      ensures !Threatens(s1.applies[id], db) && Spares(s1.applies[id].job.spec.deltaOperations, db)
    {
      if About(e, id) {
        NextFlightSafe(s, e, db, sub, id);
      }
    }
  }

  /**
   Once recorded, with no apply in flight that read the record too early, nothing on the
   timeline drops again: a subscription present then is there for good.
   */
  lemma {:induction false} NeverDroppedAgain(s: Cluster, es: seq<Event>, db: string, sub: nat)
    requires Inv(s) && Safe(s, db) && Holds(s, db, sub) && AllLeaveAlone(es, db, sub) && Run(s, es).Some?
    ensures var s1 := Run(s, es).value;
            s1.c.record == s.c.record && s1.timeline == s.timeline && Holds(s1, db, sub) && Safe(s1, db)
    decreases |es|
  {
    if es != [] {
      assert LeavesAlone(es[0], db, sub);
      NextStaysSafe(s, es[0], db, sub);
      NextKeepsInv(s, es[0]);
      NeverDroppedAgain(Next(s, es[0]), es[1..], db, sub);
    }
  }

  // ----- the threat is real ------------------------------------------------------------------------

  /** A run that leaves the subscription alone and after which it is gone. */
  ghost predicate Loses(s: Cluster, es: seq<Event>, db: string, sub: nat) {
    AllLeaveAlone(es, db, sub) && Run(s, es).Some? && !Holds(Run(s, es).value, db, sub)
  }

  lemma LosesLater(s: Cluster, e: Event, rest: seq<Event>, db: string, sub: nat)
    requires Enabled(s, e) && LeavesAlone(e, db, sub) && Loses(Next(s, e), rest, db, sub)
    ensures Loses(s, [e] + rest, db, sub)
  {
    RunOne(s, e, rest);
    forall i | 0 <= i < |[e] + rest| ensures LeavesAlone(([e] + rest)[i], db, sub) {
      assert i > 0 ==> ([e] + rest)[i] == rest[i - 1];
    }
  }

  lemma LosesNow(s: Cluster, e: Event, db: string, sub: nat)
    requires Enabled(s, e) && LeavesAlone(e, db, sub) && !Holds(Next(s, e), db, sub)
    ensures Loses(s, [e], db, sub)
  {
    RunOne(s, e, []);
  }

  /** The roles without which the command would fail. */
  function RolesIn(cmd: LocalCommand): set<string> {
    match cmd
    case ReassignOwned(role, to) => {role, to}
    case DropOwned(role) => {role}
    case SetPublicSchemaOwner(owner) => {owner}
    case _ => {}
  }

  predicate Supports(roles: set<string>, t: Task) {
    forall j, k :: 0 <= j < |t.todo| && 0 <= k < |t.todo[j]| ==> RolesIn(t.todo[j][k]) <= roles
  }

  /** With those roles a step fails nothing and brings the task closer to its drop, or does it. */
  lemma StepTowardsDrop(roles: set<string>, x: Inside, t: Task)
    requires Supports(roles, t) && DropsYet(t)
    ensures var (x1, t1) := LocalStep(roles, x, t);
            t1.target == t.target && (x1.subs == {} || (Supports(roles, t1) && DropsYet(t1)))
  {
    var t1 := LocalStep(roles, x, t).1;
    if t.todo[0] == [] {
      var j, k :| 0 <= j < |t.todo| && 0 <= k < |t.todo[j]| && t.todo[j][k].DropSubscriptions?;
      assert forall j :: 0 <= j < |t1.todo| ==> t1.todo[j] == t.todo[j + 1];
      assert t1.todo[j - 1][k].DropSubscriptions?;
    } else if !t.todo[0][0].DropSubscriptions? {
      assert RolesIn(t.todo[0][0]) <= roles;
      assert forall j :: 0 < j < |t1.todo| ==> t1.todo[j] == t.todo[j];
      assert t1.todo[0] == t.todo[0][1..] && t1.failed == t.failed;
      DropStaysAhead(t, t1);
    }
  }

  lemma DropStaysAhead(t: Task, t1: Task)
    requires DropsYet(t) && t.todo[0] != [] && !t.todo[0][0].DropSubscriptions?
    requires t1 == t.(todo := [t.todo[0][1..]] + t.todo[1..])
    ensures DropsYet(t1)
  {
    if k :| 0 <= k < |t.todo[0]| && t.todo[0][k].DropSubscriptions? {
      assert t1.todo[0][k - 1].DropSubscriptions?;
    } else {
      var j, k :| 0 <= j < |t.todo| && 0 <= k < |t.todo[j]| && t.todo[j][k].DropSubscriptions?;
      assert t1.todo[j][k].DropSubscriptions?;
    }
  }

  lemma {:induction false} TaskRunsToDrop(s: Cluster, id: nat, i: nat, db: string, sub: nat) returns (es: seq<Event>)
    requires Holds(s, db, sub) && id in s.applies && i < |s.applies[id].tasks|
    requires var t := s.applies[id].tasks[i]; t.target == db && DropsYet(t) && Supports(s.c.roles.Keys, t)
    ensures Loses(s, es, db, sub)
    decreases Work(s.applies[id].tasks[i].todo)
  {
    var roles, t, x, e := s.c.roles.Keys, s.applies[id].tasks[i], s.c.dbs[db].inside, Event.Step(id, i);
    StepTowardsDrop(roles, x, t);
    LocalStepWorks(roles, x, t);
    if Holds(Next(s, e), db, sub) {
      var rest := TaskRunsToDrop(Next(s, e), id, i, db, sub);
      LosesLater(s, e, rest, db, sub);
      es := [e] + rest;
    } else {
      LosesNow(s, e, db, sub);
      es := [e];
    }
  }

  lemma {:induction false} BatchRoles(cmds: seq<LocalCommand>) returns (roles: set<string>)
    ensures forall k :: 0 <= k < |cmds| ==> RolesIn(cmds[k]) <= roles
    decreases |cmds|
  {
    roles := {};
    if cmds != [] {
      var rest := BatchRoles(cmds[1..]);
      roles := RolesIn(cmds[0]) + rest;
      forall k | 0 <= k < |cmds| ensures RolesIn(cmds[k]) <= roles {
        assert k > 0 ==> cmds[k] == cmds[1..][k - 1];
      }
    }
  }

  lemma {:induction false} TodoRoles(todo: seq<seq<LocalCommand>>) returns (roles: set<string>)
    ensures forall j, k :: 0 <= j < |todo| && 0 <= k < |todo[j]| ==> RolesIn(todo[j][k]) <= roles
    decreases |todo|
  {
    roles := {};
    if todo != [] {
      var first := BatchRoles(todo[0]);
      var rest := TodoRoles(todo[1..]);
      roles := first + rest;
      forall j, k | 0 <= j < |todo| && 0 <= k < |todo[j]| ensures RolesIn(todo[j][k]) <= roles {
        assert j > 0 ==> todo[j] == todo[1..][j - 1];
      }
    }
  }

  function WithRoles(c: Catalog, roles: set<string>): Catalog {
    c.(roles := map r | r in c.roles.Keys + roles :: if r in c.roles then c.roles[r] else None)
  }

  /** Somebody creates the roles the task stumbles over, and it drops. */
  lemma TaskLoses(s: Cluster, id: nat, i: nat, db: string, sub: nat) returns (es: seq<Event>)
    requires Inv(s) && Holds(s, db, sub) && id in s.applies && i < |s.applies[id].tasks|
    requires var t := s.applies[id].tasks[i]; t.target == db && DropsYet(t)
    ensures Loses(s, es, db, sub)
  {
    var roles := TodoRoles(s.applies[id].tasks[i].todo);
    var c1 := WithRoles(s.c, roles);
    var e := UserActs(c1);
    forall n <- c1.dbs ensures RowWellFormed(c1.roles.Keys, c1.dbs[n]) {
      assert RowWellFormed(s.c.roles.Keys, s.c.dbs[n]);
    }
    var rest := TaskRunsToDrop(Next(s, e), id, i, db, sub);
    LosesLater(s, e, rest, db, sub);
    es := [e] + rest;
  }

  // Before a command that can succeed at all, somebody arranges that it does.

  function FreshOwner(cmd: Command): string {
    if cmd.CreateRole? || cmd.DropRoleIfExists? then cmd.name + "x" else "x"
  }

  function NeededRoles(cmd: Command): set<string> {
    match cmd
    case AlterDatabaseOwner(_, owner) => {owner}
    case CreateDatabase(_, owner) => {owner}
    case AlterRole(n, _) => {n}
    case _ => {}
  }

  function NeededDbs(cmd: Command): set<string> {
    match cmd
    case RenameDatabase(n, _) => {n}
    case AlterDatabaseOwner(n, _) => {n}
    case GrantOnDatabase(n) => {n}
    case _ => {}
  }

  /** Nothing left but `db`, without objects, and what the command needs. */
  function Arranged(c: Catalog, db: string, cmd: Command): Catalog
    requires db in c.dbs
  {
    var owner, row := FreshOwner(cmd), c.dbs[db];
    var others := map n | n in NeededDbs(cmd) :: NewRow(owner, map[]);
    Catalog(others[db := row.(owner := owner, inside := row.inside.(objects := map[]))],
            map r | r in NeededRoles(cmd) + {owner} :: None, {}, map[], c.record)
  }

  lemma ArrangedSucceeds(c: Catalog, db: string, cmd: Command)
    requires db in c.dbs && !c.dbs[db].invalid && !Doomed(cmd, db) && (cmd.RenameDatabase? ==> cmd.name != db)
    ensures Exec(Arranged(c, db, cmd), cmd).Some?
  {
  }

  lemma ArrangedByUser(s: Cluster, db: string, sub: nat, cmd: Command)
    requires Holds(s, db, sub)
    ensures var e := UserActs(Arranged(s.c, db, cmd)); Enabled(s, e) && LeavesAlone(e, db, sub)
  {
    var c1 := Arranged(s.c, db, cmd);
    forall x <- AllSubs(c1) ensures x in AllSubs(s.c) {
      assert x in s.c.dbs[db].inside.subs;
    }
  }

  lemma {:induction false} Enumerated(names: set<string>) returns (order: seq<string>)
    ensures forall n :: n in order <==> n in names
  {
    order := [];
    if names != {} {
      var n :| n in names;
      var rest := Enumerated(names - {n});
      order := [n] + rest;
    }
  }

  /** The flight and the database as they are while the drop is being brought about. */
  ghost predicate Heading(s: Cluster, id: nat, db: string, sub: nat) {
    && Inv(s) && Holds(s, db, sub) && !s.c.dbs[db].invalid
    && id in s.applies && SpawnAhead(s.applies[id], db) && Spares(s.applies[id].job.spec.deltaOperations, db)
  }

  lemma SendHeading(s: Cluster, id: nat, db: string, sub: nat) returns (s2: Cluster, e: Event)
    requires Heading(s, id, db, sub) && s.applies[id].cmds != []
    ensures Enabled(s, e) && LeavesAlone(e, db, sub)
    ensures Enabled(Next(s, e), Send(id)) && s2 == Next(Next(s, e), Send(id)) && Heading(s2, id, db, sub)
    ensures s2.applies[id] == s.applies[id].(cmds := s.applies[id].cmds[1..])
  {
    var f := s.applies[id];
    var cmd := f.cmds[0];
    assert cmd in f.cmds && CommandFits(f, cmd);
    SparedNeverNamed(f, db);
    e := UserActs(Arranged(s.c, db, cmd));
    ArrangedByUser(s, db, sub, cmd);
    ArrangedSucceeds(s.c, db, cmd);
    var s1 := Next(s, e);
    NextKeepsInv(s, e);
    NextKeepsInv(s1, Send(id));
    ExecKeepsDb(s1.c, cmd, db);
    s2 := Next(s1, Send(id));
    assert forall x <- f.cmds[1..] :: x in f.cmds;
  }

  lemma StepHeading(s: Cluster, id: nat, i: nat, db: string, sub: nat)
    requires Heading(s, id, db, sub) && i < |s.applies[id].tasks| && s.applies[id].tasks[i].todo != []
    ensures var s1 := Next(s, Event.Step(id, i));
            && id in s1.applies && s1.applies[id] == s.applies[id].(tasks := s1.applies[id].tasks)
            && TotalWork(s1.applies[id].tasks) < TotalWork(s.applies[id].tasks)
            && (Holds(s1, db, sub) ==> Heading(s1, id, db, sub))
  {
    NextKeepsInv(s, Event.Step(id, i));
    StepWorks(s.c.roles.Keys, World(s.c.dbs, s.applies[id].tasks), i);
  }

  lemma EnterHeading(s: Cluster, id: nat, names: seq<string>, db: string, sub: nat)
    requires Heading(s, id, db, sub) && Enabled(s, Enter(id, names))
    ensures var s1 := Next(s, Enter(id, names));
            && id in s1.applies && s1.applies[id].stage == s.applies[id].stage + 1 && Inv(s1) && Holds(s1, db, sub)
            && (if s.applies[id].stage < 6 then Heading(s1, id, db, sub) else TaskAhead(s1.applies[id], db))
  {
    NextKeepsInv(s, Enter(id, names));
    var f := s.applies[id];
    assert !Broken(f);
    if f.stage == 6 {
      SpawnedAhead(f, db);
    } else {
      PhaseAhead(f, names, db);
    }
  }

  lemma SpawnedAhead(f: Flight, db: string)
    requires f.drop && SpawnsDrop(f.dbs, f.job, db)
    ensures TaskAhead(f.(stage := 7, tasks := TasksOf(f.dbs, f.roles.Keys, f.job, f.drop)), db)
  {
    var listed :| listed in f.job.spec.databases && listed.name == db && Accessible(f.dbs, UserDb(listed));
    var i := TaskOfIsSpawned(f.dbs, f.roles.Keys, f.job, f.drop, UserDb(listed));
    SpawnedHasDrop(f.dbs, f.roles.Keys, f.job, f.drop, UserDb(listed));
  }

  lemma PhaseAhead(f: Flight, names: seq<string>, db: string)
    requires SpawnAhead(f, db) && f.stage < 6 && forall n <- names :: n in InvalidNames(f.dbs)
    ensures PlannedFor(f, names).Some?
    ensures var phase := PlannedFor(f, names).value;
            SpawnAhead(f.(stage := f.stage + 1, dbs := phase.dbs, cmds := phase.cmds, tasks := []), db)
  {
    if f.stage == 2 {
      forall cmd <- Drops(names) ensures !Doomed(cmd, db) {
      }
    }
  }

  /** Whoever stands in the way of the flight is cleared away, until its task drops. */
  lemma {:induction false} SpawnLoses(s: Cluster, id: nat, db: string, sub: nat) returns (es: seq<Event>)
    requires Heading(s, id, db, sub)
    ensures Loses(s, es, db, sub)
    decreases 7 - s.applies[id].stage, 1, |s.applies[id].cmds|, TotalWork(s.applies[id].tasks)
  {
    var f := s.applies[id];
    if f.cmds != [] {
      var s2, e := SendHeading(s, id, db, sub);
      var rest := SpawnLoses(s2, id, db, sub);
      LosesLater(Next(s, e), Send(id), rest, db, sub);
      LosesLater(s, e, [Send(id)] + rest, db, sub);
      es := [e] + ([Send(id)] + rest);
    } else if i: nat :| i < |f.tasks| && f.tasks[i].todo != [] {
      var e := Event.Step(id, i);
      StepHeading(s, id, i, db, sub);
      if Holds(Next(s, e), db, sub) {
        var rest := SpawnLoses(Next(s, e), id, db, sub);
        LosesLater(s, e, rest, db, sub);
        es := [e] + rest;
      } else {
        LosesNow(s, e, db, sub);
        es := [e];
      }
    } else {
      es := EnterLoses(s, id, db, sub);
    }
  }

  lemma {:induction false} EnterLoses(s: Cluster, id: nat, db: string, sub: nat) returns (es: seq<Event>)
    requires Heading(s, id, db, sub) && Settled(s.applies[id])
    ensures Loses(s, es, db, sub)
    decreases 7 - s.applies[id].stage, 0
  {
    var f := s.applies[id];
    var names := Enumerated(InvalidNames(f.dbs));
    var e := Enter(id, names);
    EnterHeading(s, id, names, db, sub);
    var s1 := Next(s, e);
    var rest: seq<Event>;
    if f.stage < 6 {
      rest := SpawnLoses(s1, id, db, sub);
    } else {
      var i: nat :| i < |s1.applies[id].tasks| && s1.applies[id].tasks[i].target == db && DropsYet(s1.applies[id].tasks[i]);
      rest := TaskLoses(s1, id, i, db, sub);
    }
    LosesLater(s, e, rest, db, sub);
    es := [e] + rest;
  }

  /** An apply in flight that has the drop ahead of it can carry it out, recorded or not. */
  lemma ThreatIsReal(s: Cluster, id: nat, db: string, sub: nat) returns (es: seq<Event>)
    requires Inv(s) && Holds(s, db, sub) && !s.c.dbs[db].invalid
    requires id in s.applies && Threatens(s.applies[id], db) && Spares(s.applies[id].job.spec.deltaOperations, db)
    ensures Loses(s, es, db, sub)
  {
    if i: nat :| i < |s.applies[id].tasks| && s.applies[id].tasks[i].target == db && DropsYet(s.applies[id].tasks[i]) {
      es := TaskLoses(s, id, i, db, sub);
    } else {
      es := SpawnLoses(s, id, db, sub);
    }
  }

  // ----- when a subscription stays -------------------------------------------------------------------

  /** Lists the one database for the owner it has, and asks for the drop. */
  function DropSpec(c: Catalog, db: string): Spec
    requires db in c.dbs
  {
    Spec([], [ListedDb(db, c.dbs[db].owner)], [], true)
  }

  lemma DropSpecSpawns(job: Job, roles: Verifiers, dbs: Dbs, listed: ListedDb, db: string)
    requires job.spec == Spec([], [listed], [], true) && listed.name == db && Accessible(dbs, UserDb(listed))
    ensures CanSpawn(1, job, roles, dbs, db)
  {
    var valid := dbs - InvalidNames(dbs);
    var last := CreateAlterOne(valid, listed);
    assert [listed][1..] == [] && last.cmds + [] == last.cmds;
    assert CreateAlter(valid, [listed]) == last;
    assert Accessible(last.dbs, UserDb(listed)) && Undoomed(last.cmds, db);
    assert listed in job.spec.databases && SpawnsDrop(last.dbs, job, db);
    assert CanSpawn(6, job, roles, last.dbs, db);
    assert CanSpawn(5, job, roles, valid, db);
    assert RenameDelete(valid, []) == Some(Phase(valid, []));
    assert CanSpawn(4, job, roles, valid, db);
    assert CanSpawn(3, job, roles, valid, db);
    assert CanSpawn(2, job, roles, dbs, db);
  }

  /** Before the record is written there is no such promise: an apply may begin, and drop. */
  lemma LostBeforeRecord(s: Cluster, db: string, sub: nat) returns (es: seq<Event>)
    requires Inv(s) && Holds(s, db, sub) && !s.c.dbs[db].restrictConn && !s.c.dbs[db].invalid
    requires s.c.record != Some(s.timeline)
    ensures Loses(s, es, db, sub)
  {
    var e, id := Begin(Params("", "", {}), DropSpec(s.c, db)), s.nextId;
    var s1 := Next(s, e);
    NextKeepsInv(s, e);
    var f := s1.applies[id];
    var names := Enumerated(InvalidNames(f.dbs));
    var s2 := Next(s1, Enter(id, names));
    NextKeepsInv(s1, Enter(id, names));
    DropSpecSpawns(f.job, f.roles, f.dbs, f.job.spec.databases[0], db);
    assert PreDropTasks(f.dbs, []) == [];
    var rest := SpawnLoses(s2, id, db, sub);
    LosesLater(s1, Enter(id, names), rest, db, sub);
    LosesLater(s, e, [Enter(id, names)] + rest, db, sub);
    es := [e] + ([Enter(id, names)] + rest);
  }

  /** Whatever happens that leaves it alone, the subscription stays. */
  ghost predicate StaysForGood(s: Cluster, db: string, sub: nat) {
    forall es :: AllLeaveAlone(es, db, sub) && Run(s, es).Some? ==> Holds(Run(s, es).value, db, sub)
  }

  /**
   A subscription in an accessible database survives everything that leaves it alone exactly
   when the drop is recorded for the timeline and no apply in flight, having read the record as
   absent, still has the drop for that database ahead of it.
   */
  lemma SubscriptionStaysExactlyWhen(s: Cluster, db: string, sub: nat)
    requires Inv(s) && Holds(s, db, sub) && !s.c.dbs[db].restrictConn && !s.c.dbs[db].invalid
    requires forall id <- s.applies :: Spares(s.applies[id].job.spec.deltaOperations, db)
    ensures StaysForGood(s, db, sub) <==>
            s.c.record == Some(s.timeline) && forall id <- s.applies :: !Threatens(s.applies[id], db)
  {
    if s.c.record != Some(s.timeline) {
      var es := LostBeforeRecord(s, db, sub);
    } else if id :| id in s.applies && Threatens(s.applies[id], db) {
      var es := ThreatIsReal(s, id, db, sub);
    } else {
      forall es | AllLeaveAlone(es, db, sub) && Run(s, es).Some? ensures Holds(Run(s, es).value, db, sub) {
        NeverDroppedAgain(s, es, db, sub);
      }
    }
  }

  /** An apply that is abandoned leaves its tasks behind, and they drop all the same. */
  lemma AbandonedTasksRunOn(s: Cluster, id: nat, db: string, sub: nat) returns (es: seq<Event>)
    requires Inv(s) && Holds(s, db, sub) && id in s.applies && TaskAhead(s.applies[id], db)
    ensures var s1 := Next(s, Abandon(id));
            id in s1.applies && !s1.applies[id].alive && Loses(s1, es, db, sub)
  {
    NextKeepsInv(s, Abandon(id));
    var i: nat :| i < |s.applies[id].tasks| && s.applies[id].tasks[i].target == db && DropsYet(s.applies[id].tasks[i]);
    es := TaskLoses(Next(s, Abandon(id)), id, i, db, sub);
  }

  /** A restart ends every threat, so with a record whatever is there then stays. */
  lemma RestartMakesSafe(s: Cluster, db: string, sub: nat)
    requires Inv(s) && Holds(s, db, sub) && s.c.record == Some(s.timeline)
    ensures StaysForGood(Next(s, Restart), db, sub)
  {
    var s1 := Next(s, Restart);
    NextKeepsInv(s, Restart);
    forall es | AllLeaveAlone(es, db, sub) && Run(s1, es).Some? ensures Holds(Run(s1, es).value, db, sub) {
      NeverDroppedAgain(s1, es, db, sub);
    }
  }

  /** On a new branch no drop is recorded, whatever the parent's record says, and every subscription is an inherited one. */
  lemma BranchStartsOver(s: Cluster, t: string)
    requires Inv(s) && Enabled(s, Branch(t))
    ensures var s1 := Next(s, Branch(t));
            && s1.c == s.c && s1.timeline == t && s1.c.record != Some(t) && s1.applies == map[]
            && forall sub <- AllSubs(s1.c) :: sub < s1.branchOid
  {
  }

  // ----- what the record promises ----------------------------------------------------------------------

  /** The flight's task number `k` is to drop in `db`: the `k`-th listed database, and accessible to its knowledge. */
  predicate Covers(f: Flight, k: nat, db: string) {
    && f.drop && k < |f.job.spec.databases| && f.job.spec.databases[k].name == db
    && Accessible(f.dbs, UserDb(f.job.spec.databases[k]))
  }

  /** The task has failed or still has its drop to do. */
  predicate Pending(f: Flight, k: nat, db: string) {
    k < |f.tasks| && f.tasks[k].target == db && (f.tasks[k].failed || HasDrop(f.tasks[k]))
  }

  /** The flight, if it is there, has not passed its tasks without that drop. */
  predicate NotYet(s: Cluster, id: nat, k: nat, db: string) {
    id in s.applies ==>
      var f := s.applies[id];
      f.stage <= 6 || (Covers(f, k, db) ==> f.stage == 7 && Pending(f, k, db))
  }

  /** While the flight is at its tasks, `db` holds no subscription. */
  predicate Cleared(s: Cluster, id: nat, db: string) {
    id in s.applies && s.applies[id].stage == 7 && db in s.c.dbs && s.c.dbs[db].inside.subs == {}
  }

  lemma SpawnedPending(f: Flight, k: nat, db: string)
    requires Covers(f, k, db)
    ensures Pending(f.(stage := 7, tasks := TasksOf(f.dbs, f.roles.Keys, f.job, f.drop)), k, db)
  {
    SpawnedIsTaskOf(f.dbs, f.roles.Keys, f.job, f.drop, k);
    SpawnedHasDrop(f.dbs, f.roles.Keys, f.job, f.drop, SpawnedFor(f.job, k));
  }

  lemma RefusedPending(t: Task)
    requires t.failed || HasDrop(t)
    ensures Refused(t).failed || HasDrop(Refused(t))
  {
    if !t.failed && t.todo[0] == [] {
      var j, k :| 0 <= j < |t.todo| && 0 <= k < |t.todo[j]| && t.todo[j][k].DropSubscriptions?;
      assert Refused(t).todo[j - 1][k].DropSubscriptions?;
    }
  }

  lemma StepPending(s: Cluster, id: nat, i: nat, k: nat, db: string)
    requires id in s.applies && i < |s.applies[id].tasks| && s.applies[id].stage == 7 && Pending(s.applies[id], k, db)
    ensures var s1 := Next(s, Event.Step(id, i));
            id in s1.applies && (Pending(s1.applies[id], k, db) || Cleared(s1, id, db))
  {
    var t := s.applies[id].tasks[i];
    if i == k {
      if db in s.c.dbs {
        StepSubs(s.c.roles.Keys, s.c.dbs[db].inside, t);
        StepStaysFailed(s.c.roles.Keys, s.c.dbs[db].inside, t);
      } else {
        RefusedPending(t);
      }
    }
  }

  lemma StepStaysFailed(roles: set<string>, x: Inside, t: Task)
    ensures t.failed ==> LocalStep(roles, x, t).1.failed
  {
  }

  lemma EnterNotYet(f: Flight, c: Catalog, names: seq<string>, k: nat, db: string)
    requires Settled(f) && !Broken(f) && (f.stage <= 6 || (Covers(f, k, db) ==> f.stage == 7 && Pending(f, k, db)))
    ensures var f1 := Entered(f, c, names);
            f1.stage <= 6 || (Covers(f1, k, db) ==> f1.stage == 7 && Pending(f1, k, db))
  {
    if f.stage == 6 && Covers(f, k, db) {
      SpawnedPending(f, k, db);
    }
  }

  lemma NextNotYet(s: Cluster, e: Event, id: nat, k: nat, db: string)
    requires Enabled(s, e) && NotYet(s, id, k, db)
    ensures NotYet(Next(s, e), id, k, db) || Cleared(Next(s, e), id, db)
  {
    if About(e, id) {
      var f := s.applies[id];
      match e
      case Enter(_, names) =>
        if !Broken(f) {
          EnterNotYet(f, s.c, names, k, db);
        }
      case Step(_, i) =>
        if f.stage == 7 && Covers(f, k, db) {
          StepPending(s, id, i, k, db);
        }
      case _ =>
    }
  }

  /** At some moment of the run, while the flight was at its tasks, `db` held no subscription. */
  ghost predicate WasCleared(s: Cluster, es: seq<Event>, id: nat, db: string) {
    exists j :: 0 <= j <= |es| && Run(s, es[..j]).Some? && Cleared(Run(s, es[..j]).value, id, db)
  }

  lemma {:induction false} ClearedOnTheWay(s: Cluster, es: seq<Event>, id: nat, k: nat, db: string)
    requires Run(s, es).Some? && NotYet(s, id, k, db)
    ensures NotYet(Run(s, es).value, id, k, db) || WasCleared(s, es, id, db)
    decreases |es|
  {
    if es != [] {
      var e, rest, s1 := es[0], es[1..], Next(s, es[0]);
      NextNotYet(s, e, id, k, db);
      if NotYet(s1, id, k, db) {
        ClearedOnTheWay(s1, rest, id, k, db);
        if WasCleared(s1, rest, id, db) {
          var j :| 0 <= j <= |rest| && Run(s1, rest[..j]).Some? && Cleared(Run(s1, rest[..j]).value, id, db);
          assert es[..j + 1][1..] == rest[..j];
          assert Run(s, es[..j + 1]) == Run(s1, rest[..j]);
        }
      } else {
        assert es[..1] == [e];
        RunOne(s, e, []);
      }
    }
  }

  /**
   Over any history the record is written only by an apply that was asked for the drop and read
   the record as absent, in its last phase; and for every database listed and accessible to it
   there was a moment, while it was at its tasks, when that database held no subscription.
   */
  lemma RecordOnlyAfterEveryDrop(s0: Cluster, es: seq<Event>, e: Event)
    requires Inv(s0) && s0.applies == map[] && Run(s0, es).Some? && Enabled(Run(s0, es).value, e)
    ensures var s := Run(s0, es).value;
            var s1 := Next(s, e);
            s1.c.record != s.c.record ==>
              && e.Send? && s1.c.record == Some(s.timeline)
              && s.applies[e.id].job.spec.dropSubscriptionsBeforeStart
              && forall k, db | Covers(s.applies[e.id], k, db) :: WasCleared(s0, es, e.id, db)
  {
    var s := Run(s0, es).value;
    RunKeepsInv(s0, es);
    NextRecord(s, e);
    if Next(s, e).c.record != s.c.record {
      assert Fits(s.applies[e.id]);
      forall k, db | Covers(s.applies[e.id], k, db) ensures WasCleared(s0, es, e.id, db) {
        ClearedOnTheWay(s0, es, e.id, k, db);
      }
    }
  }

  /** Every subscription is an old one or one made since. */
  lemma {:induction false} OnlyNewSubs(s: Cluster, es: seq<Event>)
    requires Run(s, es).Some?
    ensures var s1 := Run(s, es).value;
            s1.nextOid >= s.nextOid && forall sub <- AllSubs(s1.c) :: sub in AllSubs(s.c) || s.nextOid <= sub
    decreases |es|
  {
    if es != [] {
      NextSubs(s, es[0]);
      OnlyNewSubs(Next(s, es[0]), es[1..]);
    }
  }

  /** During the run the subscription is in no other database. */
  ghost predicate StaysIn(s: Cluster, es: seq<Event>, db: string, sub: nat) {
    forall j, n :: 0 <= j <= |es| && Run(s, es[..j]).Some? && Holds(Run(s, es[..j]).value, n, sub) ==> n == db
  }

  lemma {:induction false} PrefixRuns(s: Cluster, es: seq<Event>, j: nat)
    requires Run(s, es).Some? && j <= |es|
    ensures Run(s, es[..j]).Some? && Run(Run(s, es[..j]).value, es[j..]) == Run(s, es)
  {
    RunConcat(s, es[..j], es[j..]);
    assert es[..j] + es[j..] == es;
  }

  /**
   Once an apply with the drop is past its tasks, as it is when it writes the record, the
   inherited subscriptions of the databases it covered are gone, for good, unless somebody
   moved them elsewhere meanwhile.
   */
  lemma RecordedMeansClean(s0: Cluster, es: seq<Event>, later: seq<Event>, id: nat, k: nat, db: string, sub: nat)
    requires s0.applies == map[] && sub < s0.nextOid && Run(s0, es).Some? && StaysIn(s0, es, db, sub)
    requires var s := Run(s0, es).value; id in s.applies && s.applies[id].stage > 7 && Covers(s.applies[id], k, db)
    requires Run(Run(s0, es).value, later).Some?
    ensures sub !in AllSubs(Run(Run(s0, es).value, later).value.c)
  {
    ClearedOnTheWay(s0, es, id, k, db);
    var j :| 0 <= j <= |es| && Run(s0, es[..j]).Some? && Cleared(Run(s0, es[..j]).value, id, db);
    var s1 := Run(s0, es[..j]).value;
    forall n <- s1.c.dbs ensures sub !in s1.c.dbs[n].inside.subs {
      assert Holds(s1, n, sub) ==> n == db;
    }
    OnlyNewSubs(s0, es[..j]);
    PrefixRuns(s0, es, j);
    OnlyNewSubs(s1, es[j..]);
    OnlyNewSubs(Run(s0, es).value, later);
  }
}
