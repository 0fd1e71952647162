/**
 An apply in flight that nobody interferes with does what the phases of `ApplyStages` say: every
 outcome of those functions, under every schedule and cut off after every phase, is the outcome
 of a run.  Other applies may be in flight meanwhile, as long as they stand still.
 */
module FlightsAlone {
  import opened Prelude
  import opened PgCatalog
  import opened SpecApply
  import opened PerDatabase
  import opened ApplyStages
  import opened DropSubscriptions
  import opened Flights
  import opened SubscriptionHistory

  /** Nothing has changed but the catalog and the flight. */
  function With(s: Cluster, id: nat, c: Catalog, f: Flight): Cluster {
    s.(c := c, applies := s.applies[id := f])
  }

  lemma WithTwice(s: Cluster, id: nat, c: Catalog, f: Flight, c1: Catalog, f1: Flight)
    ensures With(With(s, id, c, f), id, c1, f1) == With(s, id, c1, f1)
  {
    assert s.applies[id := f][id := f1] == s.applies[id := f1];
  }

  lemma SendsAlone(s: Cluster, id: nat) returns (es: seq<Event>)
    requires id in s.applies
    ensures var f := s.applies[id];
            var (c, ok) := ExecAll(s.c, f.cmds);
            Run(s, es) == Some(With(s, id, c, f.(cmds := [], failed := f.failed || !ok)))
    decreases |s.applies[id].cmds|
  {
    var f := s.applies[id];
    if f.cmds == [] {
      es := [];
      assert s.applies[id := f] == s.applies;
    } else {
      var s1 := Next(s, Send(id));
      var rest := SendsAlone(s1, id);
      es := [Send(id)] + rest;
      RunOne(s, Send(id), rest);
      var (c, ok) := ExecAll(s.c, f.cmds);
      WithTwice(s, id, s1.c, s1.applies[id], c, f.(cmds := [], failed := f.failed || !ok));
    }
  }

  lemma StepsAlone(s: Cluster, id: nat, schedule: seq<nat>) returns (es: seq<Event>)
    requires id in s.applies
    ensures var f := s.applies[id];
            var w := RunSchedule(s.c.roles.Keys, World(s.c.dbs, f.tasks), schedule);
            Run(s, es) == Some(With(s, id, s.c.(dbs := w.dbs), f.(tasks := w.tasks)))
    decreases |schedule|
  {
    var f := s.applies[id];
    if schedule == [] {
      es := [];
      assert s.applies[id := f] == s.applies;
    } else if schedule[0] < |f.tasks| {
      var e := Event.Step(id, schedule[0]);
      var s1 := Next(s, e);
      var rest := StepsAlone(s1, id, schedule[1..]);
      es := [e] + rest;
      RunOne(s, e, rest);
      var w := RunSchedule(s.c.roles.Keys, World(s.c.dbs, f.tasks), schedule);
      WithTwice(s, id, s1.c, s1.applies[id], s.c.(dbs := w.dbs), f.(tasks := w.tasks));
    } else {
      es := StepsAlone(s, id, schedule[1..]);
    }
  }

  // ----- the tasks ahead of deletions ------------------------------------------------------------

  function ClearOne(rows: map<string, DbRow>, t: Task): map<string, DbRow> {
    if t.target in rows && t.todo == [[DropSubscriptions]]
    then rows[t.target := rows[t.target].(inside := rows[t.target].inside.(subs := {}))] else rows
  }

  function ClearAll(rows: map<string, DbRow>, tasks: seq<Task>): map<string, DbRow>
    decreases |tasks|
  {
    if tasks == [] then rows else ClearAll(ClearOne(rows, tasks[0]), tasks[1..])
  }

  predicate OnlyClears(t: Task) {
    t == Task(t.target, [[DropSubscriptions]], false) || t == Task(t.target, [[]], false)
  }

  lemma LocalClear(roles: set<string>, x: Inside, t: Task)
    requires OnlyClears(t)
    ensures var (x1, t1) := LocalStep(roles, x, t);
            && x1 == (if t.todo == [[DropSubscriptions]] then x.(subs := {}) else x)
            && LocalStep(roles, x1, t1) == (x1, t.(todo := []))
    ensures LocalMove(roles, t).None? && LocalMove(roles, LocalStep(roles, x, t).1).None?
    ensures Refused(Refused(t)).todo == []
  {
    var none: seq<LocalCommand> := [];
    assert [[DropSubscriptions]][0][1..] == none && [none] + [[DropSubscriptions]][1..] == [none] && [none][1..] == [];
  }

  lemma TwoSteps(roles: set<string>, w: World, i: nat)
    requires i < |w.tasks| && OnlyClears(w.tasks[i])
    ensures var w2 := RunSchedule(roles, w, [i, i]);
            && w2.dbs == ClearOne(w.dbs, w.tasks[i]) && |w2.tasks| == |w.tasks| && w2.tasks[i].todo == []
            && forall j :: 0 <= j < |w.tasks| && j != i ==> w2.tasks[j] == w.tasks[j]
  {
    var t := w.tasks[i];
    LocalClear(roles, if t.target in w.dbs then w.dbs[t.target].inside else NO_INSIDE, t);
    var w1 := WorldStep(roles, w, i);
    var w2 := WorldStep(roles, w1, i);
    assert [i, i][1..] == [i] && [i][1..] == [];
    assert RunSchedule(roles, w, [i, i]) == RunSchedule(roles, w1, [i]);
    assert RunSchedule(roles, w1, [i]) == RunSchedule(roles, w2, []);
    assert w2.dbs == ClearOne(w.dbs, t);
  }

  lemma ClearingEnds(roles: set<string>, w: World, i: nat) returns (schedule: seq<nat>)
    requires i <= |w.tasks| && (forall j :: 0 <= j < i ==> w.tasks[j].todo == [])
    requires forall j :: i <= j < |w.tasks| ==> OnlyClears(w.tasks[j])
    ensures var w1 := RunSchedule(roles, w, schedule); Finished(w1) && w1.dbs == ClearAll(w.dbs, w.tasks[i..])
    decreases |w.tasks| - i
  {
    if i == |w.tasks| {
      schedule := [];
    } else {
      TwoSteps(roles, w, i);
      var w2 := RunSchedule(roles, w, [i, i]);
      var rest := ClearingEnds(roles, w2, i + 1);
      schedule := [i, i] + rest;
      RunScheduleConcat(roles, w, [i, i], rest);
      assert w2.tasks[i + 1..] == w.tasks[i..][1..];
    }
  }

  function PreDropRows(rows: map<string, DbRow>, dbs: Dbs, ops: seq<DeltaOp>): map<string, DbRow> {
    map n | n in rows :: if PreDropped(dbs, ops, n) then rows[n].(inside := rows[n].inside.(subs := {})) else rows[n]
  }

  lemma PreDroppedCons(dbs: Dbs, ops: seq<DeltaOp>, n: string)
    requires ops != []
    ensures PreDropped(dbs, ops, n) <==>
            || PreDropped(dbs, ops[1..], n)
            || (ops[0].action == "delete_db" && ops[0].name == n && PreDropTask(dbs, n).todo == [[DropSubscriptions]])
  {
    assert forall op :: op in ops <==> op == ops[0] || op in ops[1..];
    assert [[DropSubscriptions]][0] == [DropSubscriptions];
  }

  lemma ClearOneMeans(rows: map<string, DbRow>, dbs: Dbs, ops: seq<DeltaOp>)
    requires ops != []
    ensures var rows1 := if ops[0].action == "delete_db" then ClearOne(rows, PreDropTask(dbs, ops[0].name)) else rows;
            PreDropRows(rows, dbs, ops) == PreDropRows(rows1, dbs, ops[1..])
  {
    forall n ensures PreDropped(dbs, ops, n) <==>
                     || PreDropped(dbs, ops[1..], n)
                     || (ops[0].action == "delete_db" && ops[0].name == n && PreDropTask(dbs, n).todo == [[DropSubscriptions]])
    {
      PreDroppedCons(dbs, ops, n);
    }
  }

  lemma {:induction false} ClearAllMeans(rows: map<string, DbRow>, dbs: Dbs, ops: seq<DeltaOp>)
    ensures ClearAll(rows, PreDropTasks(dbs, ops)) == PreDropRows(rows, dbs, ops)
    decreases |ops|
  {
    if ops == [] {
      assert PreDropRows(rows, dbs, ops) == rows;
    } else {
      ClearOneMeans(rows, dbs, ops);
      if ops[0].action == "delete_db" {
        assert PreDropTasks(dbs, ops)[1..] == PreDropTasks(dbs, ops[1..]);
        ClearAllMeans(ClearOne(rows, PreDropTask(dbs, ops[0].name)), dbs, ops[1..]);
      } else {
        assert PreDropTasks(dbs, ops) == PreDropTasks(dbs, ops[1..]);
        ClearAllMeans(rows, dbs, ops[1..]);
      }
    }
  }

  lemma {:induction false} PreDropsOnlyClear(dbs: Dbs, ops: seq<DeltaOp>)
    ensures forall t <- PreDropTasks(dbs, ops) :: OnlyClears(t)
    decreases |ops|
  {
    if ops != [] {
      PreDropsOnlyClear(dbs, ops[1..]);
    }
  }

  // ----- one phase ----------------------------------------------------------------------------------

  /** The flight has done as many phases as the staged apply, and goes on. */
  ghost predicate Tracks(f: Flight, k: nat, p: Progress, job: Job, roles: Verifiers, drop: bool) {
    && f.alive && f.stage == k && Settled(f) && !Broken(f)
    && f.job == job && f.roles == roles && f.dbs == p.dbs && (k > 0 ==> f.drop == drop)
  }

  /** A phase of commands is over. */
  function Done(f: Flight, phase: Phase, ok: bool): Flight {
    f.(stage := f.stage + 1, dbs := phase.dbs, cmds := [], tasks := [], failed := !ok)
  }

  lemma PhaseAlone(s: Cluster, id: nat, names: seq<string>) returns (es: seq<Event>)
    requires id in s.applies && Enabled(s, Enter(id, names)) && !Broken(s.applies[id])
    requires 1 <= s.applies[id].stage < STAGES && s.applies[id].stage != 6
    ensures var f := s.applies[id];
            match PlannedFor(f, names)
            case None => Run(s, es) == Some(With(s, id, s.c, f.(alive := false)))
            case Some(phase) =>
              var (c, ok) := ExecAll(s.c, phase.cmds);
              Run(s, es) == Some(With(s, id, c, Done(f, phase, ok)))
  {
    var f, e := s.applies[id], Enter(id, names);
    var s1 := Next(s, e);
    if PlannedFor(f, names).Some? {
      var rest := SendsAlone(s1, id);
      es := [e] + rest;
      RunOne(s, e, rest);
      var phase := PlannedFor(f, names).value;
      var (c, ok) := ExecAll(s.c, phase.cmds);
      WithTwice(s, id, s1.c, s1.applies[id], c, Done(f, phase, ok));
    } else {
      es := [e];
      RunOne(s, e, []);
    }
  }

  lemma FirstAlone(s: Cluster, id: nat, names: seq<string>) returns (es: seq<Event>)
    requires id in s.applies && Enabled(s, Enter(id, names)) && !Broken(s.applies[id]) && s.applies[id].stage == 0
    ensures var f := s.applies[id];
            exists tasks: seq<Task> ::
              && (forall i :: 0 <= i < |tasks| ==> tasks[i].todo == [])
              && Run(s, es) == Some(With(s, id, PreDrop(s.c, f.dbs, f.job.spec.deltaOperations),
                                         f.(stage := 1, drop := NeedsDrop(s.c, f.job), tasks := tasks)))
  {
    var f, e := s.applies[id], Enter(id, names);
    var s1, ops := Next(s, e), f.job.spec.deltaOperations;
    var f1, w := s1.applies[id], World(s1.c.dbs, s1.applies[id].tasks);
    ClearAllMeans(s.c.dbs, f.dbs, ops);
    PreDropsOnlyClear(f.dbs, ops);
    var schedule := ClearingEnds(s.c.roles.Keys, w, 0);
    var w1 := RunSchedule(s.c.roles.Keys, w, schedule);
    assert w.tasks[0..] == w.tasks && w1.dbs == PreDrop(s.c, f.dbs, ops).dbs;
    var rest := StepsAlone(s1, id, schedule);
    es := [e] + rest;
    RunOne(s, e, rest);
    WithTwice(s, id, s1.c, f1, s.c.(dbs := w1.dbs), f1.(tasks := w1.tasks));
    forall i | 0 <= i < |w1.tasks| ensures w1.tasks[i].todo == [] {
      assert w1.tasks[i] in w1.tasks;
    }
  }

  lemma TasksAlone(s: Cluster, id: nat, names: seq<string>, schedule: seq<nat>) returns (es: seq<Event>)
    requires id in s.applies && Enabled(s, Enter(id, names)) && !Broken(s.applies[id]) && s.applies[id].stage == 6
    ensures var f := s.applies[id];
            var w := RunSchedule(s.c.roles.Keys, World(s.c.dbs, TasksOf(f.dbs, f.roles.Keys, f.job, f.drop)), schedule);
            Run(s, es) == Some(With(s, id, s.c.(dbs := w.dbs), f.(stage := 7, tasks := w.tasks)))
  {
    var f, e := s.applies[id], Enter(id, names);
    var s1 := Next(s, e);
    var rest := StepsAlone(s1, id, schedule);
    es := [e] + rest;
    RunOne(s, e, rest);
    var w := RunSchedule(s.c.roles.Keys, World(s.c.dbs, s1.applies[id].tasks), schedule);
    WithTwice(s, id, s1.c, s1.applies[id], s.c.(dbs := w.dbs), f.(stage := 7, tasks := w.tasks));
  }

  lemma OneCommand(c: Catalog, cmd: Command)
    ensures ExecAll(c, [cmd]) == (match Exec(c, cmd) case Some(c1) => (c1, true) case None => (c, false))
  {
    var rest: seq<Command> := [cmd][1..];
    assert rest == [] && ExecAll(c, rest) == (c, true);
  }

  /** The commands of a phase are those of its stage. */
  lemma PlannedIsStage(k: nat, s: Progress, f: Flight, names: seq<string>, schedule: seq<nat>)
    requires 1 < k <= STAGES && k != 7 && s.ok && f.dbs == s.dbs && f.stage == k - 1
    requires forall n :: n in names <==> n in InvalidNames(f.dbs)
    ensures var s1 := Stage(k, s, f.roles, f.drop, f.job, schedule);
            match PlannedFor(f, names)
            case None => !s1.ok && s1.c == s.c
            case Some(phase) =>
              var (c, ok) := ExecAll(s.c, phase.cmds);
              s1.c == c && s1.ok == ok && (ok ==> s1.dbs == phase.dbs)
  {
    if k == 2 {
      OneCommand(s.c, CreateRoleIfMissing(f.job.p.privilegedRole));
    } else if k == 3 {
      DropsEffect(s.c, names);
      assert Removed(s.c, names) == set n | n in InvalidNames(s.dbs) && n in s.c.dbs && Droppable(s.c.dbs[n]);
    } else if k == 9 {
      OneCommand(s.c, RecordDrop(f.job.timeline));
    }
  }

  ghost predicate StageReached(s: Cluster, s1: Cluster, id: nat, k: nat, p1: Progress,
                               job: Job, roles: Verifiers, drop: bool) {
    && id in s1.applies && s1 == With(s, id, p1.c, s1.applies[id])
    && (p1.ok ==> Tracks(s1.applies[id], k, p1, job, roles, drop))
  }

  lemma FirstStage(s: Cluster, id: nat, names: seq<string>, p: Progress, job: Job, roles: Verifiers, drop: bool, schedule: seq<nat>)
    returns (es: seq<Event>)
    requires p.ok && s.c == p.c && id in s.applies && Tracks(s.applies[id], 0, p, job, roles, drop)
    requires Enabled(s, Enter(id, names)) && drop == NeedsDrop(s.c, job)
    ensures Run(s, es).Some?
    ensures StageReached(s, Run(s, es).value, id, 1, Stage(1, p, roles, drop, job, schedule), job, roles, drop)
  {
    es := FirstAlone(s, id, names);
  }

  lemma TaskStage(s: Cluster, id: nat, names: seq<string>, p: Progress, job: Job, roles: Verifiers, drop: bool, schedule: seq<nat>)
    returns (es: seq<Event>)
    requires p.ok && s.c == p.c && id in s.applies && Tracks(s.applies[id], 6, p, job, roles, drop)
    requires Enabled(s, Enter(id, names))
    ensures Run(s, es).Some?
    ensures StageReached(s, Run(s, es).value, id, 7, TasksStage(p, roles.Keys, job, drop, schedule), job, roles, drop)
  {
    es := TasksAlone(s, id, names, schedule);
    TasksTrack(s, s.applies[id], p, job, roles, drop, schedule);
  }

  lemma PhaseStage(s: Cluster, id: nat, names: seq<string>, k: nat, p: Progress, job: Job, roles: Verifiers, drop: bool,
                   schedule: seq<nat>)
    returns (es: seq<Event>)
    requires 1 < k <= STAGES && k != 7 && p.ok && s.c == p.c
    requires id in s.applies && Tracks(s.applies[id], k - 1, p, job, roles, drop)
    requires Enabled(s, Enter(id, names))
    ensures Run(s, es).Some?
    ensures StageReached(s, Run(s, es).value, id, k, Stage(k, p, roles, drop, job, schedule), job, roles, drop)
  {
    es := PhaseAlone(s, id, names);
    PlannedIsStage(k, p, s.applies[id], names, schedule);
  }

  lemma StageAlone(s: Cluster, id: nat, k: nat, p: Progress, job: Job, roles: Verifiers, drop: bool, schedule: seq<nat>)
    returns (es: seq<Event>)
    requires 1 <= k <= STAGES && p.ok && s.c == p.c
    requires id in s.applies && Tracks(s.applies[id], k - 1, p, job, roles, drop)
    requires k == 1 ==> drop == NeedsDrop(s.c, job)
    ensures Run(s, es).Some?
    ensures StageReached(s, Run(s, es).value, id, k, Stage(k, p, roles, drop, job, schedule), job, roles, drop)
  {
    var names := Enumerated(InvalidNames(s.applies[id].dbs));
    if k == 1 {
      es := FirstStage(s, id, names, p, job, roles, drop, schedule);
    } else if k == 7 {
      es := TaskStage(s, id, names, p, job, roles, drop, schedule);
    } else {
      es := PhaseStage(s, id, names, k, p, job, roles, drop, schedule);
    }
  }

  lemma TasksTrack(s: Cluster, f: Flight, p: Progress, job: Job, roles: Verifiers, drop: bool, schedule: seq<nat>)
    requires Tracks(f, 6, p, job, roles, drop)
    ensures var w := RunSchedule(p.c.roles.Keys, WorldOf(p, roles.Keys, job, drop), schedule);
            var p1 := TasksStage(p, roles.Keys, job, drop, schedule);
            && p1.c == p.c.(dbs := w.dbs)
            && (p1.ok ==> Tracks(f.(stage := 7, tasks := w.tasks), 7, p1, job, roles, drop))
  {
    var w := RunSchedule(p.c.roles.Keys, WorldOf(p, roles.Keys, job, drop), schedule);
    if Succeeded(w) {
      forall i | 0 <= i < |w.tasks| ensures w.tasks[i].todo == [] && !w.tasks[i].failed {
        assert w.tasks[i] in w.tasks;
      }
    }
  }

  /** Every outcome of an apply that nobody interferes with is reached by a run of its own steps. */
  lemma {:induction false} AloneIsStaged(s: Cluster, p: Params, spec: Spec, schedule: seq<nat>, k: nat)
    returns (es: seq<Event>)
    requires k <= STAGES
    ensures Run(s, es).Some?
    ensures var job, id, s1 := Job(s.timeline, p, spec), s.nextId, Run(s, es).value;
            StageReached(s.(nextId := id + 1), s1, id, k, After(k, s.c, job, schedule),
                         job, s.c.roles, NeedsDrop(s.c, job))
  {
    var job, id, drop := Job(s.timeline, p, spec), s.nextId, NeedsDrop(s.c, Job(s.timeline, p, spec));
    if k == 0 {
      es := [Begin(p, spec)];
      RunOne(s, Begin(p, spec), []);
    } else {
      var first := AloneIsStaged(s, p, spec, schedule, k - 1);
      var s1, before := Run(s, first).value, After(k - 1, s.c, job, schedule);
      if before.ok {
        var rest := StageAlone(s1, id, k, before, job, s.c.roles, drop, schedule);
        es := first + rest;
        RunConcat(s, first, rest);
        var s2 := Run(s1, rest).value;
        WithTwice(s.(nextId := id + 1), id, s1.c, s1.applies[id], s2.c, s2.applies[id]);
      } else {
        es := first;
      }
    }
  }
}
