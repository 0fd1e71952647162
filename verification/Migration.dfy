/**
 The migration runner: each migration and the bump of the stored id commit in one
 transaction, so the id always names the prefix of the list that has been applied.
 */
module Migration {
  import opened Prelude

  /** What the database holds: `neon_migration.migration_id`, and which migrations have taken effect, in order. */
  datatype Store = Store(id: nat, applied: seq<nat>)

  /**
   What may go wrong with one transaction.  `Aborts` covers every failure before the commit
   and the fail point; `CommitUnanswered` is a commit whose outcome the client never learns.
   */
  datatype Fault = NoFault | Aborts | CommitUnanswered(committed: bool)

  predicate Skipped(migration: string) {
    StartsWith(migration, "-- SKIP")
  }

  /** `run_migration`: the store afterwards, and whether the client saw success. */
  function RunMigration(s: Store, migrationId: nat, migration: string, fault: Fault): (Store, bool) {
    var txn := Store(migrationId, if Skipped(migration) then s.applied else s.applied + [migrationId]);
    match fault
    case NoFault => (txn, true)
    case Aborts => (s, false)
    case CommitUnanswered(committed) => (if committed then txn else s, false)
  }

  /** `run_migrations` from list position `current` on; `faults(i)` befalls migration number `i`. */
  function RunFrom(s: Store, migrations: seq<string>, current: nat, faults: nat -> Fault): (Store, bool)
    decreases |migrations| - current
  {
    if current >= |migrations| then (s, true)
    else
      var (s1, ok) := RunMigration(s, current + 1, migrations[current], faults(current + 1));
      if ok then RunFrom(s1, migrations, current + 1, faults) else (s1, false)
  }

  function Run(s: Store, migrations: seq<string>, faults: nat -> Fault): (Store, bool) {
    RunFrom(s, migrations, s.id, faults)
  }

  // ----- how far one run gets ---------------------------------------------------------------

  /** Migration number `i`, counted from zero, does not succeed. */
  predicate Faulty(faults: nat -> Fault, i: nat) {
    !faults(i + 1).NoFault?
  }

  predicate Undisturbed(migrations: seq<string>, from: nat, faults: nat -> Fault) {
    forall i: nat :: from <= i < |migrations| ==> !Faulty(faults, i)
  }

  predicate FirstFault(migrations: seq<string>, from: nat, faults: nat -> Fault, k: nat) {
    from <= k < |migrations| && Faulty(faults, k) && forall i: nat :: from <= i < k ==> !Faulty(faults, i)
  }

  /**
   Success exactly when no migration from `from` to the end of the list has a fault; the id then is the
   end of the list, or what it was if that is further.  Otherwise it ends before the first faulty
   migration, or after it when its commit went through unheard.
   */
  ghost predicate EndsExactly(from: nat, id: nat, ok: bool, migrations: seq<string>, faults: nat -> Fault) {
    && (ok <==> Undisturbed(migrations, from, faults))
    && (ok ==> id == (if from < |migrations| then |migrations| else from))
    && forall k: nat | FirstFault(migrations, from, faults, k) ::
         id == (if faults(k + 1) == CommitUnanswered(true) then k + 1 else k)
  }

  lemma {:induction false} RunFromEndsExactly(s: Store, migrations: seq<string>, current: nat, faults: nat -> Fault)
    requires current == s.id
    ensures var (s1, ok) := RunFrom(s, migrations, current, faults); EndsExactly(current, s1.id, ok, migrations, faults)
    decreases |migrations| - current
  {
    if current < |migrations| {
      var (s1, ok) := RunMigration(s, current + 1, migrations[current], faults(current + 1));
      if ok {
        assert !Faulty(faults, current);
        RunFromEndsExactly(s1, migrations, current + 1, faults);
        forall k: nat | FirstFault(migrations, current, faults, k) ensures FirstFault(migrations, current + 1, faults, k) {
        }
      } else {
        assert Faulty(faults, current);
        assert forall k: nat | FirstFault(migrations, current, faults, k) :: k == current;
      }
    }
  }

  /** Every run ends so. */
  lemma RunEndsExactly(s: Store, migrations: seq<string>, faults: nat -> Fault)
    ensures var (s1, ok) := Run(s, migrations, faults); EndsExactly(s.id, s1.id, ok, migrations, faults)
  {
    RunFromEndsExactly(s, migrations, s.id, faults);
  }

  class Database {
    var store: Store

    constructor ()
      ensures store == Store(0, [])
    {
      store := Store(0, []);
    }

    method TryMigration(migrationId: nat, migration: string, fault: Fault) returns (ok: bool)
      modifies this
      ensures (store, ok) == RunMigration(old(store), migrationId, migration, fault)
    {
      var txn := store;
      if !Skipped(migration) {
        txn := txn.(applied := txn.applied + [migrationId]);
      }
      txn := txn.(id := migrationId);
      match fault {
        case NoFault =>
          store := txn;
          ok := true;
        case Aborts =>
          ok := false;
        case CommitUnanswered(committed) =>
          if committed {
            store := txn;
          }
          ok := false;
      }
    }

    method RunMigrations(migrations: seq<string>, faults: nat -> Fault) returns (ok: bool)
      modifies this
      ensures (store, ok) == Run(old(store), migrations, faults)
      ensures EndsExactly(old(store).id, store.id, ok, migrations, faults)
    {
      var current := store.id;
      RunEndsExactly(store, migrations, faults);
      while current < |migrations|
        invariant Run(old(store), migrations, faults) == RunFrom(store, migrations, current, faults)
      {
        var migrationId := current + 1;
        ok := TryMigration(migrationId, migrations[current], faults(migrationId));
        if !ok {
          return;
        }
        current := current + 1;
      }
      ok := true;
    }
  }

  // ----- what holds over any history ----------------------------------------------------

  /** The ids of the first `k` migrations that are not skipped, in list order. */
  function Due(list: seq<string>, k: nat): seq<nat>
    requires k <= |list|
  {
    if k == 0 then [] else Due(list, k - 1) + (if Skipped(list[k - 1]) then [] else [k])
  }

  /** The stored id is the length of the completed prefix, and exactly that prefix has taken effect. */
  predicate Consistent(s: Store, list: seq<string>) {
    s.id <= |list| && s.applied == Due(list, s.id)
  }

  lemma TransactionKeepsConsistent(s: Store, list: seq<string>, fault: Fault)
    requires Consistent(s, list) && s.id < |list|
    ensures var (s1, ok) := RunMigration(s, s.id + 1, list[s.id], fault);
            Consistent(s1, list) && s.id <= s1.id <= s.id + 1 && (ok ==> s1.id == s.id + 1)
  {
  }

  lemma {:induction false} RunFromKeepsConsistent(s: Store, list: seq<string>, migrations: seq<string>, current: nat,
                                                  faults: nat -> Fault)
    requires Consistent(s, list) && migrations <= list && current == s.id
    ensures var (s1, ok) := RunFrom(s, migrations, current, faults);
            && Consistent(s1, list) && s.id <= s1.id
            && (ok ==> s1.id == (if s.id <= |migrations| then |migrations| else s.id))
            && (s1.id <= |migrations| || s1 == s)
    decreases |migrations| - current
  {
    if current < |migrations| {
      assert migrations[current] == list[current];
      TransactionKeepsConsistent(s, list, faults(current + 1));
      var (s1, ok) := RunMigration(s, current + 1, migrations[current], faults(current + 1));
      if ok {
        RunFromKeepsConsistent(s1, list, migrations, current + 1, faults);
      }
    }
  }

  /** One start of the compute: the migrations its binary knows, and what goes wrong. */
  datatype Attempt = Attempt(migrations: seq<string>, faults: nat -> Fault)

  function History(s: Store, attempts: seq<Attempt>): Store
    decreases |attempts|
  {
    if attempts == [] then s else History(Run(s, attempts[0].migrations, attempts[0].faults).0, attempts[1..])
  }

  /**
   Whatever fails and whichever prefix of the list each binary knows, older or newer, the id
   never goes back and always equals the length of the prefix that has taken effect.
   */
  lemma {:induction false} HistoryIsConsistent(s: Store, list: seq<string>, attempts: seq<Attempt>)
    requires Consistent(s, list)
    requires forall i :: 0 <= i < |attempts| ==> attempts[i].migrations <= list
    ensures Consistent(History(s, attempts), list) && s.id <= History(s, attempts).id
    decreases |attempts|
  {
    if attempts != [] {
      RunFromKeepsConsistent(s, list, attempts[0].migrations, s.id, attempts[0].faults);
      assert forall i :: 0 <= i < |attempts| - 1 ==> attempts[1..][i] == attempts[i + 1];
      HistoryIsConsistent(Run(s, attempts[0].migrations, attempts[0].faults).0, list, attempts[1..]);
    }
  }

  lemma {:induction false} DueMembers(list: seq<string>, k: nat, id: nat)
    requires k <= |list|
    ensures id in Due(list, k) <==> 1 <= id <= k && !Skipped(list[id - 1])
  {
    if k > 0 {
      DueMembers(list, k - 1, id);
    }
  }

  lemma {:induction false} DueInOrder(list: seq<string>, k: nat)
    requires k <= |list|
    ensures forall i, j :: 0 <= i < j < |Due(list, k)| ==> Due(list, k)[i] < Due(list, k)[j]
    ensures forall i :: 0 <= i < |Due(list, k)| ==> Due(list, k)[i] <= k
  {
    if k > 0 {
      DueInOrder(list, k - 1);
      var before, now := Due(list, k - 1), Due(list, k);
      assert forall i :: 0 <= i < |before| ==> now[i] == before[i];
    }
  }

  /** From an empty database: once, in order, and up to the stored id. */
  lemma AppliedExactlyOnce(list: seq<string>, attempts: seq<Attempt>, id: nat)
    requires forall i :: 0 <= i < |attempts| ==> attempts[i].migrations <= list
    ensures var s := History(Store(0, []), attempts);
            && s.id <= |list|
            && (id in s.applied <==> 1 <= id <= s.id && !("-- SKIP" <= list[id - 1]))
            && forall i, j :: 0 <= i < j < |s.applied| ==> s.applied[i] < s.applied[j]
  {
    HistoryIsConsistent(Store(0, []), list, attempts);
    DueMembers(list, History(Store(0, []), attempts).id, id);
    DueInOrder(list, History(Store(0, []), attempts).id);
  }

  /** Once an attempt knows the whole list and meets no fault, whatever came before, everything due is applied. */
  lemma CompletesWhenUndisturbed(list: seq<string>, attempts: seq<Attempt>, faults: nat -> Fault)
    requires forall i :: 0 <= i < |attempts| ==> attempts[i].migrations <= list
    requires Undisturbed(list, 0, faults)
    ensures var (s, ok) := Run(History(Store(0, []), attempts), list, faults);
            ok && s.id == |list| && s.applied == Due(list, |list|)
  {
    var before := History(Store(0, []), attempts);
    HistoryIsConsistent(Store(0, []), list, attempts);
    RunEndsExactly(before, list, faults);
    RunFromKeepsConsistent(before, list, list, before.id, faults);
  }
}
