/**
 Applies in flight.  Several of them can overlap, since a promotion applies its spec without
 looking at the status; users act in between; a failed apply leaves tasks behind that run on.
 So here an apply moves one command, one step of a task or one phase at a time, on a
 catalog that everybody else changes as well.
 */
module Flights {
  import opened Prelude
  import opened PgCatalog
  import opened SpecApply
  import opened PerDatabase
  import opened ApplyStages
  import opened DropSubscriptions

  /**
   What an apply was asked for, what it has read, how many phases it has begun, what it has sent
   or spawned and not yet seen done, whether a command has failed, and whether it goes on.
   */
  datatype Flight = Flight(
    job: Job,
    roles: Verifiers,
    dbs: Dbs,
    drop: bool,
    stage: nat,
    cmds: seq<Command>,
    tasks: seq<Task>,
    failed: bool,
    alive: bool)

  /** Ids of subscriptions below `branchOid` were inherited. */
  datatype Cluster = Cluster(
    c: Catalog,
    timeline: string,
    used: set<string>,
    nextOid: nat,
    branchOid: nat,
    applies: map<nat, Flight>,
    nextId: nat)

  datatype Event =
    | Begin(p: Params, spec: Spec)            // an apply reads databases and roles
    | Enter(id: nat, names: seq<string>)      // it goes on to its next phase, or ends
    | Send(id: nat)                           // its next command runs
    | Step(id: nat, i: nat)                   // its task `i` runs one command or ends a batch
    | Abandon(id: nat)                        // it gives up or loses its connection; its tasks run on
    | Restart                                 // of the compute, with everything it was doing
    | UserCreates(db: string)                 // a subscription
    | UserActs(c: Catalog)                    // anything that makes no subscription
    | Branch(timeline: string)

  // ----- the phases --------------------------------------------------------------------------

  /** A pre-drop task connects only if the snapshot says it can. */
  function PreDropTask(dbs: Dbs, n: string): Task {
    Task(n, [if Accessible(dbs, UserDb(ListedDb(n, "cloud_admin"))) then [DropSubscriptions] else []], false)
  }

  function PreDropTasks(dbs: Dbs, ops: seq<DeltaOp>): seq<Task>
    decreases |ops|
  {
    if ops == [] then []
    else (if ops[0].action == "delete_db" then [PreDropTask(dbs, ops[0].name)] else []) + PreDropTasks(dbs, ops[1..])
  }

  /** What a phase of commands makes of the snapshot and sends; `None` is a panic. */
  function Planned(k: nat, job: Job, roles: Verifiers, dbs: Dbs, drop: bool, names: seq<string>): Option<Phase> {
    var ops := job.spec.deltaOperations;
    if k == 2 then Some(Phase(dbs, [CreateRoleIfMissing(job.p.privilegedRole)]))
    else if k == 3 then Some(Phase(dbs - InvalidNames(dbs), Drops(names)))
    else if k == 4 then
      if RenamedRolesKnown(roles, ops) then Some(Phase(dbs, RoleCommands(roles, job.p.jwksRoles, job.spec.roles)))
      else None
    else if k == 5 then RenameDelete(dbs, ops)
    else if k == 6 then Some(CreateAlter(dbs, job.spec.databases))
    else if k == 8 then Some(Phase(dbs, DropRoleCommands(ops)))
    else if k == 9 && drop then Some(Phase(dbs, [RecordDrop(job.timeline)]))
    else Some(Phase(dbs, []))
  }

  function PlannedFor(f: Flight, names: seq<string>): Option<Phase> {
    Planned(f.stage + 1, f.job, f.roles, f.dbs, f.drop, names)
  }

  /** The next phase: the record is read before the first, tasks are spawned in the first and the seventh. */
  function Entered(f: Flight, c: Catalog, names: seq<string>): Flight {
    var k := f.stage + 1;
    if k == 1 then
      f.(stage := k, drop := NeedsDrop(c, f.job), tasks := PreDropTasks(f.dbs, f.job.spec.deltaOperations))
    else if k == 7 then
      f.(stage := k, tasks := TasksOf(f.dbs, f.roles.Keys, f.job, f.drop))
    else if k > STAGES then f.(alive := false)
    else
      match PlannedFor(f, names)
      case None => f.(alive := false)
      case Some(phase) => f.(stage := k, dbs := phase.dbs, cmds := phase.cmds, tasks := [])
  }

  /** All answers are in and all tasks have ended. */
  predicate Settled(f: Flight) {
    f.cmds == [] && forall i :: 0 <= i < |f.tasks| ==> f.tasks[i].todo == []
  }

  /** A pre-drop task that finds no database is only warned about. */
  predicate Broken(f: Flight) {
    f.failed || (f.stage != 1 && exists i :: 0 <= i < |f.tasks| && f.tasks[i].failed)
  }

  // ----- the machine ---------------------------------------------------------------------------

  predicate Enabled(s: Cluster, e: Event) {
    match e
    case Begin(_, _) => true
    case Enter(id, names) =>
      && id in s.applies && s.applies[id].alive && Settled(s.applies[id])
      && (forall n <- names :: n in InvalidNames(s.applies[id].dbs))
      && (forall n <- InvalidNames(s.applies[id].dbs) :: n in names)
    case Send(id) => id in s.applies && s.applies[id].cmds != []
    case Step(id, i) => id in s.applies && i < |s.applies[id].tasks|
    case Abandon(id) => id in s.applies
    case Restart => true
    case UserCreates(db) => db in s.c.dbs
    case UserActs(c) => WellFormed(c) && c.record == s.c.record && AllSubs(c) <= AllSubs(s.c)
    case Branch(t) => t !in s.used
  }

  function Started(s: Cluster, p: Params, spec: Spec): Flight {
    Flight(Job(s.timeline, p, spec), s.c.roles, Snapshot(s.c), false, 0, [], [], false, true)
  }

  function Next(s: Cluster, e: Event): Cluster
    requires Enabled(s, e)
  {
    match e
    case Begin(p, spec) => s.(applies := s.applies[s.nextId := Started(s, p, spec)], nextId := s.nextId + 1)
    case Enter(id, names) =>
      var f := s.applies[id];
      s.(applies := s.applies[id := if Broken(f) then f.(alive := false) else Entered(f, s.c, names)])
    case Send(id) =>
      var f := s.applies[id];
      (match Exec(s.c, f.cmds[0])
       case Some(c) => s.(c := c, applies := s.applies[id := f.(cmds := f.cmds[1..])])
       case None => s.(applies := s.applies[id := f.(cmds := f.cmds[1..], failed := true)]))
    case Step(id, i) =>
      var f := s.applies[id];
      var w := WorldStep(s.c.roles.Keys, World(s.c.dbs, f.tasks), i);
      s.(c := s.c.(dbs := w.dbs), applies := s.applies[id := f.(tasks := w.tasks)])
    case Abandon(id) => s.(applies := s.applies[id := s.applies[id].(alive := false)])
    case Restart => s.(applies := map[])
    case UserCreates(db) =>
      var row := s.c.dbs[db];
      s.(c := s.c.(dbs := s.c.dbs[db := row.(inside := row.inside.(subs := row.inside.subs + {s.nextOid}))]),
         nextOid := s.nextOid + 1)
    case UserActs(c) => s.(c := c)
    case Branch(t) => s.(timeline := t, used := s.used + {t}, branchOid := s.nextOid, applies := map[])
  }

  function Run(s: Cluster, es: seq<Event>): Option<Cluster>
    decreases |es|
  {
    if es == [] then Some(s)
    else if Enabled(s, es[0]) then Run(Next(s, es[0]), es[1..])
    else None
  }

  lemma {:induction false} RunConcat(s: Cluster, a: seq<Event>, b: seq<Event>)
    ensures Run(s, a + b) == (match Run(s, a) case Some(s1) => Run(s1, b) case None => None)
    decreases |a|
  {
    if a == [] {
      assert a + b == b;
    } else {
      assert (a + b)[1..] == a[1..] + b;
      if Enabled(s, a[0]) {
        RunConcat(Next(s, a[0]), a[1..], b);
      }
    }
  }

  lemma RunOne(s: Cluster, e: Event, rest: seq<Event>)
    requires Enabled(s, e)
    ensures Run(s, [e] + rest) == Run(Next(s, e), rest)
    ensures Run(s, [e]) == Some(Next(s, e))
  {
    assert ([e] + rest)[1..] == rest && [e][1..] == [];
    assert Run(s, [e]) == Run(Next(s, e), []);
  }

  // ----- what every run keeps --------------------------------------------------------------------

  predicate Renames(ops: seq<DeltaOp>, n: string) {
    exists op <- ops :: op.action == "rename_db" && op.name == n
  }

  /** The drop is still ahead of the task: in the batch it has begun, or in a later one that it will get to. */
  predicate DropsYet(t: Task) {
    t.todo != [] && ((exists k :: 0 <= k < |t.todo[0]| && t.todo[0][k].DropSubscriptions?) || (!t.failed && HasDrop(t)))
  }

  /** Commands rename and record only what the spec asks for, each in its phase. */
  ghost predicate CommandFits(f: Flight, cmd: Command) {
    && (cmd.RenameDatabase? ==> Renames(f.job.spec.deltaOperations, cmd.name))
    && (cmd.RecordDrop? ==> f.stage == 9 && f.drop && cmd.timeline == f.job.timeline)
  }

  /** Tasks drop only where the spec deletes the database or asks for the drop. */
  ghost predicate TaskFits(f: Flight, t: Task) {
    DropsYet(t) ==> if f.stage == 1 then Deletes(f.job.spec.deltaOperations, t.target) else f.drop
  }

  ghost predicate Fits(f: Flight) {
    && (f.drop ==> f.job.spec.dropSubscriptionsBeforeStart)
    && (f.stage != 1 && f.stage != 7 ==> f.tasks == [])
    && (forall cmd <- f.cmds :: CommandFits(f, cmd))
    && (forall i :: 0 <= i < |f.tasks| ==> TaskFits(f, f.tasks[i]))
  }

  ghost predicate Inv(s: Cluster) {
    && WellFormed(s.c) && s.timeline in s.used
    && (s.c.record.Some? ==> s.c.record.value in s.used)
    && s.branchOid <= s.nextOid
    && (forall sub <- AllSubs(s.c) :: sub < s.nextOid)
    && (forall id <- s.applies :: id < s.nextId && s.applies[id].job.timeline == s.timeline && Fits(s.applies[id]))
  }

  lemma StepDropsYet(roles: set<string>, x: Inside, t: Task)
    ensures var (x1, t1) := LocalStep(roles, x, t);
            && x1.subs <= x.subs && t1.target == t.target && Refused(t).target == t.target
            && (!DropsYet(t) ==> x1.subs == x.subs && !DropsYet(t1) && !DropsYet(Refused(t)))
  {
    StepSubs(roles, x, t);
    var t1 := LocalStep(roles, x, t).1;
    if t.todo != [] && !DropsYet(t) {
      if t.todo[0] != [] {
        assert t1.todo[0] == t.todo[0][1..];
        assert !t.todo[0][0].DropSubscriptions?;
        if !t.failed {
          assert !HasDrop(t);
        }
      } else if !t.failed {
        assert !HasDrop(t);
      }
    }
  }

  lemma {:induction false} PreDropsFit(dbs: Dbs, ops: seq<DeltaOp>)
    ensures forall t <- PreDropTasks(dbs, ops) :: Deletes(ops, t.target)
    decreases |ops|
  {
    if ops != [] {
      PreDropsFit(dbs, ops[1..]);
      assert ops[0] in ops;
      forall t <- PreDropTasks(dbs, ops) ensures Deletes(ops, t.target) {
        if t in PreDropTasks(dbs, ops[1..]) {
          var op :| op in ops[1..] && op.action == "delete_db" && op.name == t.target;
          assert op in ops;
        }
      }
    }
  }

  lemma {:induction false} RenamesFit(dbs: Dbs, ops: seq<DeltaOp>)
    requires RenameDelete(dbs, ops).Some?
    ensures forall cmd <- RenameDelete(dbs, ops).value.cmds :: cmd.RenameDatabase? ==> Renames(ops, cmd.name)
    decreases |ops|
  {
    if ops != [] {
      var first := RenameDeleteOne(dbs, ops[0]).value;
      RenamesFit(first.dbs, ops[1..]);
      assert ops[0] in ops;
      forall cmd <- RenameDelete(dbs, ops).value.cmds | cmd.RenameDatabase? ensures Renames(ops, cmd.name) {
        if cmd !in first.cmds {
          var op :| op in ops[1..] && op.action == "rename_db" && op.name == cmd.name;
          assert op in ops;
        }
      }
    }
  }

  lemma PlannedFits(f: Flight, names: seq<string>)
    requires f.stage < STAGES && PlannedFor(f, names).Some?
    ensures forall cmd <- PlannedFor(f, names).value.cmds :: CommandFits(f.(stage := f.stage + 1), cmd)
  {
    var k := f.stage + 1;
    if k == 4 {
      RoleCommandsAreTame(f.roles, f.job.p.jwksRoles, f.job.spec.roles);
    } else if k == 5 {
      RenamesFit(f.dbs, f.job.spec.deltaOperations);
      RenamesWriteNoRecord(f.dbs, f.job.spec.deltaOperations);
    } else if k == 6 {
      CreatesAreTame(f.dbs, f.job.spec.databases);
    } else if k == 8 {
      RoleDropsAreTame(f.job.spec.deltaOperations);
    }
  }

  lemma SpawnedFits(f: Flight)
    ensures var tasks := TasksOf(f.dbs, f.roles.Keys, f.job, f.drop);
            forall i :: 0 <= i < |tasks| ==> TaskFits(f.(stage := 7), tasks[i])
  {
    var tasks := TasksOf(f.dbs, f.roles.Keys, f.job, f.drop);
    forall i: nat | i < |tasks| ensures TaskFits(f.(stage := 7), tasks[i]) {
      SpawnedIsTaskOf(f.dbs, f.roles.Keys, f.job, f.drop, i);
      SpawnedHasDrop(f.dbs, f.roles.Keys, f.job, f.drop, SpawnedFor(f.job, i));
    }
  }

  lemma FirstFits(f: Flight, c: Catalog)
    requires Fits(f) && f.cmds == [] && f.stage == 0
    ensures Fits(f.(stage := 1, drop := NeedsDrop(c, f.job), tasks := PreDropTasks(f.dbs, f.job.spec.deltaOperations)))
  {
    PreDropsFit(f.dbs, f.job.spec.deltaOperations);
  }

  lemma PhaseFits(f: Flight, names: seq<string>)
    requires Fits(f) && f.cmds == [] && 1 <= f.stage < STAGES && f.stage != 6 && PlannedFor(f, names).Some?
    ensures var phase := PlannedFor(f, names).value;
            Fits(f.(stage := f.stage + 1, dbs := phase.dbs, cmds := phase.cmds, tasks := []))
  {
    PlannedFits(f, names);
    var phase := PlannedFor(f, names).value;
    var f1 := f.(stage := f.stage + 1, dbs := phase.dbs, cmds := phase.cmds, tasks := []);
    forall cmd <- phase.cmds ensures CommandFits(f1, cmd) {
      assert CommandFits(f.(stage := f.stage + 1), cmd);
    }
  }

  lemma EnteredFits(f: Flight, c: Catalog, names: seq<string>)
    requires Fits(f) && f.cmds == []
    ensures Fits(Entered(f, c, names)) && Entered(f, c, names).job == f.job
  {
    var k := f.stage + 1;
    if k == 1 {
      FirstFits(f, c);
    } else if k == 7 {
      SpawnedFits(f);
    } else if k <= STAGES && PlannedFor(f, names).Some? {
      PhaseFits(f, names);
    }
  }

  lemma SteppedFits(roles: set<string>, dbs: map<string, DbRow>, f: Flight, i: nat)
    requires Fits(f) && i < |f.tasks|
    ensures Fits(f.(tasks := WorldStep(roles, World(dbs, f.tasks), i).tasks))
  {
    var t := f.tasks[i];
    StepDropsYet(roles, if t.target in dbs then dbs[t.target].inside else NO_INSIDE, t);
    assert TaskFits(f, t);
  }

  lemma StepKeepsSubs(roles: set<string>, w: World, i: nat)
    requires i < |w.tasks|
    ensures var w1 := WorldStep(roles, w, i);
            && w1.dbs.Keys == w.dbs.Keys
            && (forall n <- w.dbs :: w1.dbs[n].inside.subs <= w.dbs[n].inside.subs)
            && (forall n <- w.dbs | n != w.tasks[i].target || !DropsYet(w.tasks[i]) ::
                  w1.dbs[n].inside.subs == w.dbs[n].inside.subs)
  {
    var t := w.tasks[i];
    if t.target in w.dbs {
      StepDropsYet(roles, w.dbs[t.target].inside, t);
    }
  }

  lemma FewerSubs(c: Catalog, c1: Catalog)
    requires c1.dbs.Keys == c.dbs.Keys && forall n <- c.dbs :: c1.dbs[n].inside.subs <= c.dbs[n].inside.subs
    ensures AllSubs(c1) <= AllSubs(c)
  {
  }

  /** Nothing but a user makes subscriptions, one at a time and with an id of its own. */
  lemma NextSubs(s: Cluster, e: Event)
    requires Enabled(s, e)
    ensures forall sub <- AllSubs(Next(s, e).c) :: sub in AllSubs(s.c) || (e.UserCreates? && sub == s.nextOid)
    ensures Next(s, e).nextOid == s.nextOid + (if e.UserCreates? then 1 else 0)
  {
    match e
    case Send(id) =>
      if Exec(s.c, s.applies[id].cmds[0]).Some? {
        ExecKeepsSubs(s.c, s.applies[id].cmds[0]);
      }
    case Step(id, i) =>
      StepKeepsSubs(s.c.roles.Keys, World(s.c.dbs, s.applies[id].tasks), i);
      FewerSubs(s.c, Next(s, e).c);
    case UserCreates(db) =>
      var c1 := Next(s, e).c;
      forall sub <- AllSubs(c1) ensures sub in AllSubs(s.c) || sub == s.nextOid {
        var n :| n in c1.dbs && sub in c1.dbs[n].inside.subs;
        assert sub == s.nextOid || sub in s.c.dbs[n].inside.subs;
      }
    case _ =>
  }

  lemma NextWellFormed(s: Cluster, e: Event)
    requires Inv(s) && Enabled(s, e)
    ensures WellFormed(Next(s, e).c)
  {
    match e
    case Send(id) => ExecKeepsWellFormed(s.c, s.applies[id].cmds[0]);
    case Step(id, i) => StepKeepsWellFormed(s.c.roles.Keys, World(s.c.dbs, s.applies[id].tasks), i);
    case UserCreates(db) => assert RowWellFormed(s.c.roles.Keys, s.c.dbs[db]);
    case _ =>
  }

  /** The flight an event is about, if any. */
  predicate About(e: Event, id: nat) {
    (e.Enter? || e.Send? || e.Step? || e.Abandon?) && e.id == id
  }

  lemma SentFits(f: Flight)
    requires Fits(f) && f.cmds != []
    ensures Fits(f.(cmds := f.cmds[1..])) && Fits(f.(cmds := f.cmds[1..], failed := true))
  {
    forall cmd <- f.cmds[1..] ensures CommandFits(f, cmd) {
      assert cmd in f.cmds;
    }
  }

  lemma NextFlightFits(s: Cluster, e: Event, id: nat)
    requires Inv(s) && Enabled(s, e) && About(e, id)
    ensures id in Next(s, e).applies && Fits(Next(s, e).applies[id]) && Next(s, e).applies[id].job == s.applies[id].job
  {
    var f := s.applies[id];
    match e
    case Enter(_, names) =>
      if !Broken(f) {
        EnteredFits(f, s.c, names);
      }
    case Send(_) => SentFits(f);
    case Step(_, i) => SteppedFits(s.c.roles.Keys, s.c.dbs, f, i);
    case _ =>
  }

  /** The record is written by a flight that was asked for the drop and is in its last phase. */
  lemma NextRecord(s: Cluster, e: Event)
    requires Inv(s) && Enabled(s, e)
    ensures var s1 := Next(s, e);
            s1.c.record != s.c.record ==>
              && e.Send? && s1.c.record == Some(s.timeline)
              && s.applies[e.id].drop && s.applies[e.id].stage == 9 && s.applies[e.id].cmds[0] == RecordDrop(s.timeline)
  {
    if e.Send? {
      var f := s.applies[e.id];
      assert f.cmds[0] in f.cmds;
      if Exec(s.c, f.cmds[0]).Some? {
        ExecKeepsSubs(s.c, f.cmds[0]);
      }
    }
  }

  lemma NextKeepsInv(s: Cluster, e: Event)
    requires Inv(s) && Enabled(s, e)
    ensures Inv(Next(s, e))
  {
    var s1 := Next(s, e);
    NextWellFormed(s, e);
    NextSubs(s, e);
    NextRecord(s, e);
    forall id <- s1.applies
      ensures id < s1.nextId && s1.applies[id].job.timeline == s1.timeline && Fits(s1.applies[id])
    {
      if About(e, id) {
        NextFlightFits(s, e, id);
      }
    }
  }

  lemma {:induction false} RunKeepsInv(s: Cluster, es: seq<Event>)
    requires Inv(s) && Run(s, es).Some?
    ensures Inv(Run(s, es).value)
    decreases |es|
  {
    if es != [] {
      NextKeepsInv(s, es[0]);
      RunKeepsInv(Next(s, es[0]), es[1..]);
    }
  }
}
