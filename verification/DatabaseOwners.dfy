/**
 Who owns the databases after the per-database tasks.  REASSIGN OWNED moves databases as
 well as objects, from whichever task sends it first, so here the order can matter.
 */
module DatabaseOwners {
  import opened Prelude
  import opened PgCatalog
  import opened SpecApply
  import opened PerDatabase

  /** The task has yet to give what `role` owns to `to`. */
  predicate Gives(roles: set<string>, t: Task, role: string, to: string) {
    t.todo != [] && ReassignOwned(role, to) in t.todo[0] && role in roles && to in roles
  }

  /** Only the first batch gives anything away. */
  predicate GivesFirst(t: Task) {
    forall j, k :: 0 < j < |t.todo| && 0 <= k < |t.todo[j]| ==> !t.todo[j][k].ReassignOwned?
  }

  lemma StepGives(roles: set<string>, x: Inside, t: Task, role: string, to: string)
    requires GivesFirst(t)
    ensures var t1 := LocalStep(roles, x, t).1;
            && (Gives(roles, t1, role, to) ==> Gives(roles, t, role, to))
            && (Gives(roles, t, role, to) ==> Gives(roles, t1, role, to) || LocalMove(roles, t) == Some((role, to)))
  {
    if t.todo != [] && t.todo[0] != [] {
      var t1 := LocalStep(roles, x, t).1;
      assert t1.todo[0] == t.todo[0][1..];
    }
  }

  lemma StepGivesFirst(roles: set<string>, x: Inside, t: Task)
    requires GivesFirst(t)
    ensures GivesFirst(LocalStep(roles, x, t).1)
  {
    var t1 := LocalStep(roles, x, t).1;
    if t.todo != [] && t.todo[0] == [] {
      assert forall j :: 0 < j < |t1.todo| ==> t1.todo[j] == t.todo[j + 1];
    } else if t.todo != [] {
      assert forall j :: 0 < j < |t1.todo| ==> t1.todo[j] == t.todo[j];
    }
  }

  lemma MoveIsGiven(roles: set<string>, t: Task)
    requires LocalMove(roles, t).Some?
    ensures Gives(roles, t, LocalMove(roles, t).value.0, LocalMove(roles, t).value.1)
  {
    assert t.todo[0][0] in t.todo[0];
  }

  /** Every task has its database and gives in its first batch only. */
  ghost predicate Shaped(w: World) {
    forall i :: 0 <= i < |w.tasks| ==> w.tasks[i].target in w.dbs && GivesFirst(w.tasks[i])
  }

  /** Nobody gives away what was given to them from `role`. */
  ghost predicate NoChain(roles: set<string>, w: World, role: string) {
    forall i, j, b, c ::
      0 <= i < |w.tasks| && 0 <= j < |w.tasks| && Gives(roles, w.tasks[i], role, b) ==> !Gives(roles, w.tasks[j], b, c)
  }

  ghost predicate Orderly(roles: set<string>, w: World) {
    Shaped(w) && forall role :: NoChain(roles, w, role)
  }

  lemma StepStaysShaped(roles: set<string>, w: World, i: nat)
    requires Shaped(w) && i < |w.tasks|
    ensures Shaped(WorldStep(roles, w, i))
  {
    var t := w.tasks[i];
    StepGivesFirst(roles, w.dbs[t.target].inside, t);
  }

  lemma StepStaysOrderly(roles: set<string>, w: World, i: nat)
    requires Orderly(roles, w) && i < |w.tasks|
    ensures Orderly(roles, WorldStep(roles, w, i))
  {
    StepStaysShaped(roles, w, i);
    var t, w1 := w.tasks[i], WorldStep(roles, w, i);
    var x := w.dbs[t.target].inside;
    forall a, b ensures Gives(roles, LocalStep(roles, x, t).1, a, b) ==> Gives(roles, t, a, b) {
      StepGives(roles, x, t, a, b);
    }
    forall role ensures NoChain(roles, w1, role) {
      assert NoChain(roles, w, role);
    }
  }

  // ----- where a database ends up ----------------------------------------------------------

  /**
   Either nobody has given the database away yet and all who would still may, or somebody
   has given it to its present owner.
   */
  ghost predicate OwnerSoFar(roles: set<string>, w0: World, w: World, n: string)
    requires n in w0.dbs
  {
    && n in w.dbs && |w.tasks| == |w0.tasks|
    && (forall i, a, b :: 0 <= i < |w.tasks| && Gives(roles, w.tasks[i], a, b) ==> Gives(roles, w0.tasks[i], a, b))
    && var o := w0.dbs[n].owner;
    if w.dbs[n].owner == o
    then forall i, b :: 0 <= i < |w.tasks| && Gives(roles, w0.tasks[i], o, b) ==> Gives(roles, w.tasks[i], o, b)
    else GivenTo(roles, w0, o, w.dbs[n].owner)
  }

  ghost predicate GivenTo(roles: set<string>, w: World, role: string, to: string) {
    exists i :: 0 <= i < |w.tasks| && Gives(roles, w.tasks[i], role, to)
  }

  lemma StepKeepsOwnerSoFar(roles: set<string>, w0: World, w: World, n: string, i: nat)
    requires Shaped(w) && n in w0.dbs && NoChain(roles, w0, w0.dbs[n].owner) && OwnerSoFar(roles, w0, w, n) && i < |w.tasks|
    ensures OwnerSoFar(roles, w0, WorldStep(roles, w, i), n)
  {
    var t, w1 := w.tasks[i], WorldStep(roles, w, i);
    var x, o := w.dbs[t.target].inside, w0.dbs[n].owner;
    forall a, b
      ensures Gives(roles, w1.tasks[i], a, b) ==> Gives(roles, t, a, b)
      ensures Gives(roles, t, a, b) ==> Gives(roles, w1.tasks[i], a, b) || LocalMove(roles, t) == Some((a, b))
    {
      StepGives(roles, x, t, a, b);
    }
    if LocalMove(roles, t).Some? {
      MoveIsGiven(roles, t);
      var (a, b) := LocalMove(roles, t).value;
      assert Gives(roles, w0.tasks[i], a, b);
      if w.dbs[n].owner != o {
        var k :| 0 <= k < |w0.tasks| && Gives(roles, w0.tasks[k], o, w.dbs[n].owner);
        assert a != w.dbs[n].owner;
      }
    }
  }

  lemma {:induction false} RunKeepsOwnerSoFar(roles: set<string>, w0: World, w: World, n: string, schedule: seq<nat>)
    requires Shaped(w) && n in w0.dbs && NoChain(roles, w0, w0.dbs[n].owner) && OwnerSoFar(roles, w0, w, n)
    ensures OwnerSoFar(roles, w0, RunSchedule(roles, w, schedule), n)
    decreases |schedule|
  {
    if schedule != [] {
      if schedule[0] < |w.tasks| {
        StepStaysShaped(roles, w, schedule[0]);
        StepKeepsOwnerSoFar(roles, w0, w, n, schedule[0]);
        RunKeepsOwnerSoFar(roles, w0, WorldStep(roles, w, schedule[0]), n, schedule[1..]);
      } else {
        RunKeepsOwnerSoFar(roles, w0, w, n, schedule[1..]);
      }
    }
  }

  /** A database nobody gives away keeps its owner; any other goes to one of those it is given to. */
  lemma OwnerAfter(roles: set<string>, w: World, schedule: seq<nat>, n: string)
    requires Shaped(w) && n in w.dbs && NoChain(roles, w, w.dbs[n].owner) && Finished(RunSchedule(roles, w, schedule))
    ensures var w1 := RunSchedule(roles, w, schedule);
            && n in w1.dbs
            && (if exists to :: GivenTo(roles, w, w.dbs[n].owner, to)
                then GivenTo(roles, w, w.dbs[n].owner, w1.dbs[n].owner)
                else w1.dbs[n].owner == w.dbs[n].owner)
  {
    RunKeepsOwnerSoFar(roles, w, w, n, schedule);
    var w1 := RunSchedule(roles, w, schedule);
    var o := w.dbs[n].owner;
    forall i, b | 0 <= i < |w1.tasks| ensures !Gives(roles, w1.tasks[i], o, b) {
      assert w1.tasks[i] in w1.tasks;
    }
    if w1.dbs[n].owner == o {
      forall to ensures !GivenTo(roles, w, o, to) {
      }
    }
  }

  /** Nothing but owners and insides ever changes. */
  predicate SameHeader(row: DbRow, row1: DbRow) {
    row1 == row.(owner := row1.owner, inside := row1.inside)
  }

  lemma {:induction false} RunKeepsHeaders(roles: set<string>, w: World, schedule: seq<nat>)
    ensures var w1 := RunSchedule(roles, w, schedule);
            w1.dbs.Keys == w.dbs.Keys && forall n <- w.dbs :: SameHeader(w.dbs[n], w1.dbs[n])
    decreases |schedule|
  {
    if schedule != [] {
      RunKeepsHeaders(roles, if schedule[0] < |w.tasks| then WorldStep(roles, w, schedule[0]) else w, schedule[1..]);
    }
  }

  // ----- every one of those can come first ------------------------------------------------

  function Work(todo: seq<seq<LocalCommand>>): nat {
    if todo == [] then 0 else 1 + |todo[0]| + Work(todo[1..])
  }

  function TotalWork(tasks: seq<Task>): nat {
    if tasks == [] then 0 else Work(tasks[0].todo) + TotalWork(tasks[1..])
  }

  lemma {:induction false} TotalWorkDrops(tasks: seq<Task>, i: nat, t: Task)
    requires i < |tasks| && Work(t.todo) < Work(tasks[i].todo)
    ensures TotalWork(tasks[i := t]) < TotalWork(tasks)
    decreases |tasks|
  {
    if i == 0 {
      assert tasks[0 := t][1..] == tasks[1..];
    } else {
      assert tasks[i := t][1..] == tasks[1..][i - 1 := t];
      TotalWorkDrops(tasks[1..], i - 1, t);
    }
  }

  lemma LocalStepWorks(roles: set<string>, x: Inside, t: Task)
    requires t.todo != []
    ensures Work(LocalStep(roles, x, t).1.todo) < Work(t.todo) && Work(Refused(t).todo) < Work(t.todo)
  {
    if t.todo[0] != [] {
      var t1 := LocalStep(roles, x, t).1;
      assert t1.todo[0] == t.todo[0][1..] && t1.todo[1..] == t.todo[1..];
    }
  }

  lemma StepWorks(roles: set<string>, w: World, i: nat)
    requires i < |w.tasks| && w.tasks[i].todo != []
    ensures TotalWork(WorldStep(roles, w, i).tasks) < TotalWork(w.tasks)
  {
    var t := w.tasks[i];
    LocalStepWorks(roles, if t.target in w.dbs then w.dbs[t.target].inside else NO_INSIDE, t);
    TotalWorkDrops(w.tasks, i, WorldStep(roles, w, i).tasks[i]);
  }

  /** Any run can be brought to its end. */
  lemma {:induction false} CanFinish(roles: set<string>, w: World) returns (schedule: seq<nat>)
    ensures Finished(RunSchedule(roles, w, schedule))
    decreases TotalWork(w.tasks)
  {
    if Finished(w) {
      schedule := [];
    } else {
      var i: nat :| i < |w.tasks| && w.tasks[i].todo != [];
      StepWorks(roles, w, i);
      var rest := CanFinish(roles, WorldStep(roles, w, i));
      schedule := [i] + rest;
    }
  }

  /** A task gives what a role owns to one role only. */
  ghost predicate OneHeir(roles: set<string>, w: World) {
    forall i, a, b, c :: 0 <= i < |w.tasks| && Gives(roles, w.tasks[i], a, b) && Gives(roles, w.tasks[i], a, c) ==> b == c
  }

  lemma StepKeepsOneHeir(roles: set<string>, w: World, i: nat)
    requires Orderly(roles, w) && OneHeir(roles, w) && i < |w.tasks|
    ensures OneHeir(roles, WorldStep(roles, w, i))
  {
    var t := w.tasks[i];
    var x := w.dbs[t.target].inside;
    forall a, b ensures Gives(roles, LocalStep(roles, x, t).1, a, b) ==> Gives(roles, t, a, b) {
      StepGives(roles, x, t, a, b);
    }
  }

  /** Task `i` alone, until it has given the database away. */
  lemma {:induction false} GoesFirst(roles: set<string>, w: World, i: nat, n: string, to: string) returns (schedule: seq<nat>)
    requires Orderly(roles, w) && OneHeir(roles, w) && i < |w.tasks| && n in w.dbs
    requires Gives(roles, w.tasks[i], w.dbs[n].owner, to)
    ensures var w1 := RunSchedule(roles, w, schedule);
            && n in w1.dbs && w1.dbs[n].owner == to && Orderly(roles, w1) && |w1.tasks| == |w.tasks|
            && forall k, a, b :: 0 <= k < |w.tasks| && Gives(roles, w1.tasks[k], a, b) ==> Gives(roles, w.tasks[k], a, b)
    decreases |w.tasks[i].todo[0]|
  {
    var t, w1 := w.tasks[i], WorldStep(roles, w, i);
    var x, o := w.dbs[t.target].inside, w.dbs[n].owner;
    StepStaysOrderly(roles, w, i);
    forall a, b ensures Gives(roles, w1.tasks[i], a, b) ==> Gives(roles, t, a, b) {
      StepGives(roles, x, t, a, b);
    }
    StepGives(roles, x, t, o, to);
    if LocalMove(roles, t).Some? && LocalMove(roles, t).value.0 == o {
      MoveIsGiven(roles, t);
      schedule := [i];
      assert RunSchedule(roles, w, schedule) == RunSchedule(roles, w1, []);
    } else {
      StepKeepsOneHeir(roles, w, i);
      assert w1.tasks[i].todo[0] == t.todo[0][1..];
      var rest := GoesFirst(roles, w1, i, n, to);
      schedule := [i] + rest;
      assert schedule[1..] == rest;
    }
  }

  /** The tasks that give a database away agree on the heir. */
  ghost predicate Agreed(roles: set<string>, w: World) {
    forall n, a, b :: n in w.dbs && GivenTo(roles, w, w.dbs[n].owner, a) && GivenTo(roles, w, w.dbs[n].owner, b) ==> a == b
  }

  ghost predicate OrderMatters(roles: set<string>, w: World) {
    exists s1, s2 :: && Finished(RunSchedule(roles, w, s1)) && Finished(RunSchedule(roles, w, s2))
                     && RunSchedule(roles, w, s1).dbs != RunSchedule(roles, w, s2).dbs
  }

  lemma NobodyGives(roles: set<string>, w: World, i: nat, role: string, to: string, k: nat, b: string)
    requires Orderly(roles, w) && i < |w.tasks| && k < |w.tasks| && Gives(roles, w.tasks[i], role, to)
    ensures !Gives(roles, w.tasks[k], to, b)
  {
    assert NoChain(roles, w, role);
  }

  /** A schedule that ends with the database in the hands of `to`. */
  lemma EndsWith(roles: set<string>, w: World, n: string, to: string) returns (schedule: seq<nat>)
    requires Orderly(roles, w) && OneHeir(roles, w) && n in w.dbs && GivenTo(roles, w, w.dbs[n].owner, to)
    ensures var w1 := RunSchedule(roles, w, schedule); Finished(w1) && n in w1.dbs && w1.dbs[n].owner == to
  {
    var i: nat :| i < |w.tasks| && Gives(roles, w.tasks[i], w.dbs[n].owner, to);
    var first := GoesFirst(roles, w, i, n, to);
    var w1 := RunSchedule(roles, w, first);
    var rest := CanFinish(roles, w1);
    schedule := first + rest;
    RunScheduleConcat(roles, w, first, rest);
    forall k, b | 0 <= k < |w1.tasks| ensures !Gives(roles, w1.tasks[k], to, b) {
      NobodyGives(roles, w, i, w.dbs[n].owner, to, k, b);
    }
    OwnerAfter(roles, w1, rest, n);
  }

  /**
   The order of the tasks matters, and then only to who owns which database, exactly when two
   of them would give the same database to different roles.
   */
  lemma OrderMattersExactlyWhen(roles: set<string>, w: World)
    requires Separate(w) && Orderly(roles, w) && OneHeir(roles, w)
    ensures OrderMatters(roles, w) <==> !Agreed(roles, w)
  {
    if !Agreed(roles, w) {
      var n, a, b :| n in w.dbs && GivenTo(roles, w, w.dbs[n].owner, a) && GivenTo(roles, w, w.dbs[n].owner, b) && a != b;
      var s1 := EndsWith(roles, w, n, a);
      var s2 := EndsWith(roles, w, n, b);
      assert RunSchedule(roles, w, s1).dbs[n] != RunSchedule(roles, w, s2).dbs[n];
    } else if OrderMatters(roles, w) {
      var s1, s2 :| && Finished(RunSchedule(roles, w, s1)) && Finished(RunSchedule(roles, w, s2))
                    && RunSchedule(roles, w, s1).dbs != RunSchedule(roles, w, s2).dbs;
      SameEnd(roles, w, s1, s2);
      assert false;
    }
  }

  lemma SameEnd(roles: set<string>, w: World, s1: seq<nat>, s2: seq<nat>)
    requires Separate(w) && Orderly(roles, w) && Agreed(roles, w)
    requires Finished(RunSchedule(roles, w, s1)) && Finished(RunSchedule(roles, w, s2))
    ensures RunSchedule(roles, w, s1).dbs == RunSchedule(roles, w, s2).dbs
  {
    var w1, w2 := RunSchedule(roles, w, s1), RunSchedule(roles, w, s2);
    InterleavingDoesNotMatter(roles, w, s1);
    InterleavingDoesNotMatter(roles, w, s2);
    RunKeepsHeaders(roles, w, s1);
    RunKeepsHeaders(roles, w, s2);
    forall n <- w.dbs ensures w1.dbs[n] == w2.dbs[n] {
      OwnerAfter(roles, w, s1, n);
      OwnerAfter(roles, w, s2, n);
      assert InsidesOf(w1.dbs)[n] == InsidesOf(w2.dbs)[n];
      assert SameHeader(w.dbs[n], w1.dbs[n]) && SameHeader(w.dbs[n], w2.dbs[n]);
    }
  }

  // ----- two tasks in one database -------------------------------------------------------------

  function Sends(n: string, role: string, to: string): Task {
    Task(n, [[ReassignOwned(role, to)]], false)
  }

  /** A finished run after which `obj` belongs to `to`. */
  ghost predicate CanEndWith(roles: set<string>, w: World, n: string, obj: string, to: string) {
    exists s :: EndsWithObject(RunSchedule(roles, w, s), n, obj, to)
  }

  predicate EndsWithObject(w: World, n: string, obj: string, to: string) {
    Finished(w) && n in w.dbs && obj in w.dbs[n].inside.objects && w.dbs[n].inside.objects[obj] == to
  }

  /** When two tasks share a database, even its objects depend on the order: each of them can have its way. */
  lemma SharedDatabaseOrderMatters(roles: set<string>, w: World, n: string, obj: string, a: string, b: string)
    requires n in w.dbs && obj in w.dbs[n].inside.objects && a in roles && b in roles
    requires var r := w.dbs[n].inside.objects[obj]; r in roles && r != a && r != b && w.tasks == [Sends(n, r, a), Sends(n, r, b)]
    ensures CanEndWith(roles, w, n, obj, a) && CanEndWith(roles, w, n, obj, b)
  {
    var r := w.dbs[n].inside.objects[obj];
    FirstTaskWins(roles, w, n, obj, r, 0, a, b);
    FirstTaskWins(roles, w, n, obj, r, 1, b, a);
  }

  lemma LocalSends(roles: set<string>, x: Inside, n: string, r: string, to: string)
    requires r in roles && to in roles
    ensures LocalStep(roles, x, Sends(n, r, to)) == (x.(objects := Reassigned(x.objects, r, to)), Task(n, [[]], false))
  {
    var todo := Sends(n, r, to).todo;
    var sent: seq<LocalCommand> := todo[0][1..];
    assert sent == [] && [sent] + todo[1..] == [sent];
  }

  lemma SendsStep(roles: set<string>, w: World, n: string, r: string, i: nat, to: string)
    requires |w.tasks| == 2 && i < 2 && n in w.dbs && w.tasks[i] == Sends(n, r, to) && r in roles && to in roles
    ensures var w2 := RunSchedule(roles, w, [i, i]);
            && |w2.tasks| == 2 && w2.tasks[i].todo == [] && w2.tasks[1 - i] == w.tasks[1 - i]
            && n in w2.dbs && w2.dbs[n].inside.objects == Reassigned(w.dbs[n].inside.objects, r, to)
  {
    var w1 := WorldStep(roles, w, i);
    LocalSends(roles, w.dbs[n].inside, n, r, to);
    var w2 := WorldStep(roles, w1, i);
    assert w2.dbs[n].inside == w1.dbs[n].inside;
    assert [i, i][1..] == [i] && [i][1..] == [];
    assert RunSchedule(roles, w, [i, i]) == RunSchedule(roles, w1, [i]);
    assert RunSchedule(roles, w1, [i]) == RunSchedule(roles, w2, []);
  }

  lemma SecondTaskIsLate(roles: set<string>, w: World, n: string, obj: string, r: string, i: nat, to: string, other: string)
    requires n in w.dbs && obj in w.dbs[n].inside.objects && w.dbs[n].inside.objects[obj] == to && |w.tasks| == 2 && i < 2
    requires w.tasks[i] == Sends(n, r, other) && w.tasks[1 - i].todo == [] && r in roles && other in roles && r != to
    ensures EndsWithObject(RunSchedule(roles, w, [i, i]), n, obj, to)
  {
    SendsStep(roles, w, n, r, i, other);
    TwoDone(RunSchedule(roles, w, [i, i]), i);
  }

  lemma TwoDone(w: World, i: nat)
    requires |w.tasks| == 2 && i < 2 && w.tasks[i].todo == [] && w.tasks[1 - i].todo == []
    ensures Finished(w)
  {
    assert forall t <- w.tasks :: t == w.tasks[0] || t == w.tasks[1];
  }

  lemma FirstTaskWins(roles: set<string>, w: World, n: string, obj: string, r: string, i: nat, to: string, other: string)
    requires n in w.dbs && obj in w.dbs[n].inside.objects && w.dbs[n].inside.objects[obj] == r && |w.tasks| == 2 && i < 2
    requires w.tasks[i] == Sends(n, r, to) && w.tasks[1 - i] == Sends(n, r, other)
    requires r in roles && to in roles && other in roles && r != to
    ensures EndsWithObject(RunSchedule(roles, w, [i, i] + [1 - i, 1 - i]), n, obj, to)
  {
    RunScheduleConcat(roles, w, [i, i], [1 - i, 1 - i]);
    SendsStep(roles, w, n, r, i, to);
    SecondTaskIsLate(roles, RunSchedule(roles, w, [i, i]), n, obj, r, 1 - i, to, other);
  }
}
