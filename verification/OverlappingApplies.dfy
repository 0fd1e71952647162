/**
 What can go wrong, and what cannot, when an apply that drops subscriptions is not alone.
 */
module OverlappingApplies {
  import opened Prelude
  import opened PgText
  import opened PgCatalog
  import opened SpecApply
  import opened PerDatabase
  import opened DatabaseOwners
  import opened ApplyStages
  import opened ApplyResults
  import opened DropSubscriptions
  import opened Flights
  import opened SubscriptionHistory
  import opened FlightsAlone

  /** A running cluster on a timeline without a record: `db` is a user's database, `system` the system database. */
  ghost predicate Unrecorded(s: Cluster, db: string, system: string) {
    && Inv(s) && NoInvalid(s.c) && s.c.record != Some(s.timeline) && "cloud_admin" in s.c.roles
    && db in s.c.dbs && !s.c.dbs[db].restrictConn && system in s.c.dbs && system != db
  }

  function DropParams(c: Catalog, db: string, system: string): Params
    requires db in c.dbs
  {
    Params(c.dbs[db].owner, system, {})
  }

  function DropJob(s: Cluster, db: string, system: string): Job
    requires db in s.c.dbs
  {
    Job(s.timeline, DropParams(s.c, db, system), DropSpec(s.c, db))
  }

  lemma DropReady(s: Cluster, db: string, system: string, schedule: seq<nat>)
    requires Unrecorded(s, db, system)
    ensures var job := DropJob(s, db, system);
            && NeedsDrop(s.c, job) && After(6, s.c, job, schedule) == Progress(s.c, Snapshot(s.c), true)
            && ReadyForTasks(After(6, s.c, job, schedule), s.c.roles.Keys, job)
  {
    var job := DropJob(s, db, system);
    assert RowWellFormed(s.c.roles.Keys, s.c.dbs[db]);
    assert Plain(s.c, job);
    ToTheTasks(s.c, job, schedule);
    assert Snapshot(s.c)[db := Snapshot(s.c)[db].(owner := s.c.dbs[db].owner)] == Snapshot(s.c);
    assert DeletedRoles(job.spec.deltaOperations) == {};
  }

  /** Left alone, such an apply succeeds; what it leaves of the databases' headers. */
  lemma DropSucceeds(s: Cluster, db: string, system: string) returns (schedule: seq<nat>)
    requires Unrecorded(s, db, system)
    ensures var job := DropJob(s, db, system);
            && After(8, s.c, job, schedule).ok && After(9, s.c, job, schedule).ok
            && db in After(8, s.c, job, schedule).c.dbs && SameHeader(s.c.dbs[db], After(8, s.c, job, schedule).c.dbs[db])
            && After(9, s.c, job, schedule).c == After(8, s.c, job, schedule).c.(record := Some(s.timeline))
  {
    var job, roles := DropJob(s, db, system), s.c.roles.Keys;
    DropReady(s, db, system, []);
    var s6 := Progress(s.c, Snapshot(s.c), true);
    schedule := CanFinish(roles, WorldOf(s6, roles, job, true));
    DropReady(s, db, system, schedule);
    TwoMore(s.c, job, schedule, 6);
    TasksSucceed(s6, roles, job, true, schedule);
    var s7 := TasksStage(s6, roles, job, true, schedule);
    RunKeepsHeaders(roles, WorldOf(s6, roles, job, true), schedule);
    assert DropRolesStage(s7, []) == Progress(s7.c, s7.dbs, true);
    LastStage(s.c, job, schedule, 8);
  }

  lemma LastStage(c: Catalog, job: Job, schedule: seq<nat>, k: nat)
    requires k == 8 && After(k, c, job, schedule).ok && NeedsDrop(c, job)
    ensures var s := After(k, c, job, schedule);
            After(k + 1, c, job, schedule) == s.(c := s.c.(record := Some(job.timeline)))
  {
  }

  /** A flight that has just begun with such a spec finds no record. */
  lemma ReadsAbsent(f: Flight, c: Catalog, names: seq<string>, listed: ListedDb)
    requires f.stage == 0 && f.cmds == [] && f.alive && !f.failed && c.record != Some(f.job.timeline)
    requires f.job.spec == Spec([], [listed], [], true) && Accessible(f.dbs, UserDb(listed))
    ensures SpawnAhead(Entered(f, c, names), listed.name)
  {
    DropSpecSpawns(f.job, f.roles, f.dbs, listed, listed.name);
  }

  lemma FirstReads(s: Cluster, db: string, system: string) returns (es: seq<Event>)
    requires Unrecorded(s, db, system)
    ensures Run(s, es).Some?
    ensures var id, s1 := s.nextId, Run(s, es).value;
            && id in s1.applies && s1 == With(s.(nextId := id + 1), id, s.c, s1.applies[id])
            && SpawnAhead(s1.applies[id], db) && Spares(s1.applies[id].job.spec.deltaOperations, db)
  {
    var id, p, spec := s.nextId, DropParams(s.c, db, system), DropSpec(s.c, db);
    var s1, f := Next(s, Begin(p, spec)), Started(s, p, spec);
    var names := Enumerated(InvalidNames(f.dbs));
    ReadsAbsent(f, s.c, names, spec.databases[0]);
    es := [Begin(p, spec)] + [Enter(id, names)];
    RunOne(s, Begin(p, spec), [Enter(id, names)]);
    RunOne(s1, Enter(id, names), []);
    WithTwice(s.(nextId := id + 1), id, s.c, f, s.c, Entered(f, s.c, names));
  }

  /**
   Two applies read the record as absent.  The second drops and writes the record, a user makes a
   subscription, and the first drops it, although nobody meant to.
   */
  lemma OverlapDropsNewSubscription(s: Cluster, db: string, system: string) returns (es: seq<Event>, later: seq<Event>)
    requires Unrecorded(s, db, system)
    ensures Run(s, es).Some?
    ensures var s1 := Run(s, es).value;
            && s1.c.record == Some(s1.timeline) && Enabled(s1, UserCreates(db))
            && var s2 := Next(s1, UserCreates(db)); Holds(s2, db, s1.nextOid) && Loses(s2, later, db, s1.nextOid)
  {
    var id := s.nextId;
    var first := FirstReads(s, db, system);
    var s1 := Run(s, first).value;
    RunKeepsInv(s, first);
    var schedule := DropSucceeds(s1, db, system);
    var second := AloneIsStaged(s1, DropParams(s1.c, db, system), DropSpec(s1.c, db), schedule, 9);
    es := first + second;
    RunConcat(s, first, second);
    RunKeepsInv(s, es);
    var s2 := Run(s, es).value;
    assert s2.applies[id] == s1.applies[id];
    var s3 := Next(s2, UserCreates(db));
    NextKeepsInv(s2, UserCreates(db));
    later := ThreatIsReal(s3, id, db, s2.nextOid);
  }

  lemma RecordAlone(s: Cluster, id: nat) returns (es: seq<Event>)
    requires id in s.applies
    requires var f := s.applies[id]; f.alive && Settled(f) && !Broken(f) && f.stage == 8 && f.drop
    ensures var f := s.applies[id];
            Run(s, es) == Some(With(s, id, s.c.(record := Some(f.job.timeline)), Done(f, Phase(f.dbs, []), true)))
  {
    var f := s.applies[id];
    var names := Enumerated(InvalidNames(f.dbs));
    es := PhaseAlone(s, id, names);
    OneCommand(s.c, RecordDrop(f.job.timeline));
  }

  /** With no other apply in flight, what is there when the last phase is done stays. */
  lemma StaysAfterRecord(s: Cluster, id: nat, db: string, sub: nat)
    requires Inv(s) && s.applies.Keys == {id} && Holds(s, db, sub) && !s.c.dbs[db].restrictConn && !s.c.dbs[db].invalid
    requires s.c.record == Some(s.timeline) && s.applies[id].stage == 9 && s.applies[id].job.spec.deltaOperations == []
    ensures StaysForGood(s, db, sub)
  {
    SubscriptionStaysExactlyWhen(s, db, sub);
  }

  /**
   A subscription that a user makes while the apply is between its tasks and its last phase is
   there when the record is written, and for good.
   */
  lemma MadeBeforeRecordStays(s: Cluster, db: string, system: string) returns (es: seq<Event>)
    requires Unrecorded(s, db, system) && s.applies == map[]
    ensures Run(s, es).Some?
    ensures var s1 := Run(s, es).value;
            && s1.c.record == Some(s1.timeline) && s1.nextOid == s.nextOid + 1
            && Holds(s1, db, s.nextOid) && StaysForGood(s1, db, s.nextOid)
  {
    var id := s.nextId;
    var schedule := DropSucceeds(s, db, system);
    var first := AloneIsStaged(s, DropParams(s.c, db, system), DropSpec(s.c, db), schedule, 8);
    var s1 := Run(s, first).value;
    var s2 := Next(s1, UserCreates(db));
    var last := RecordAlone(s2, id);
    RunOne(s1, UserCreates(db), last);
    es := first + ([UserCreates(db)] + last);
    RunConcat(s, first, [UserCreates(db)] + last);
    RunKeepsInv(s, es);
    StaysAfterRecord(Run(s, es).value, id, db, s.nextOid);
  }
}
