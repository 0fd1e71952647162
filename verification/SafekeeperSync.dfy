/**
 The safekeeper fast path: whether a full `sync_safekeepers` may be skipped, and at which
 LSN the compute then starts (`ParsedSpec::validate`, `check_safekeepers_synced_async`,
 `check_if_synced`).
 */
module SafekeeperSync {
  import opened Prelude

  // ----- validation of the connection strings ------------------------------------------

  /** The order of `String`: by code point, a prefix first. */
  predicate LexLe(a: string, b: string) {
    if a == "" then true
    else if b == "" then false
    else a[0] < b[0] || (a[0] == b[0] && LexLe(a[1..], b[1..]))
  }

  lemma {:induction false} LexLeTotal(a: string, b: string)
    ensures LexLe(a, b) || LexLe(b, a)
  {
    if a != "" && b != "" && a[0] == b[0] {
      LexLeTotal(a[1..], b[1..]);
    }
  }

  lemma {:induction false} LexLeTransitive(a: string, b: string, c: string)
    requires LexLe(a, b) && LexLe(b, c)
    ensures LexLe(a, c)
  {
    if a != "" && a[0] == b[0] && b[0] == c[0] {
      LexLeTransitive(a[1..], b[1..], c[1..]);
    }
  }

  lemma {:induction false} LexLeAntisymmetric(a: string, b: string)
    requires LexLe(a, b) && LexLe(b, a)
    ensures a == b
  {
    if a != "" {
      LexLeAntisymmetric(a[1..], b[1..]);
      assert a == [a[0]] + a[1..] && b == [b[0]] + b[1..];
    }
  }

  ghost predicate Sorted(s: seq<string>) {
    forall i, j :: 0 <= i < j < |s| ==> LexLe(s[i], s[j])
  }

  function Insert(x: string, s: seq<string>): seq<string> {
    if s == [] then [x]
    else if LexLe(x, s[0]) then [x] + s
    else [s[0]] + Insert(x, s[1..])
  }

  lemma {:induction false} InsertSorts(x: string, s: seq<string>)
    requires Sorted(s)
    ensures Sorted(Insert(x, s))
    decreases |s|
  {
    if s != [] {
      LexLeTotal(x, s[0]);
      if LexLe(x, s[0]) {
        forall j | 0 <= j < |s| ensures LexLe(x, s[j]) {
          if j > 0 { LexLeTransitive(x, s[0], s[j]); }
        }
      } else {
        InsertSorts(x, s[1..]);
        var rest := Insert(x, s[1..]);
        forall j | 0 <= j < |rest| ensures LexLe(s[0], rest[j]) {
          InsertMember(x, s[1..], rest[j]);
        }
        SortedCons(s[0], rest);
      }
    }
  }

  lemma SortedCons(x: string, s: seq<string>)
    requires Sorted(s) && forall j :: 0 <= j < |s| ==> LexLe(x, s[j])
    ensures Sorted([x] + s)
  {
  }

  lemma {:induction false} InsertKeeps(x: string, s: seq<string>)
    ensures multiset(Insert(x, s)) == multiset(s) + multiset{x}
    decreases |s|
  {
    if s != [] {
      assert s == [s[0]] + s[1..];
      InsertKeeps(x, s[1..]);
    }
  }

  lemma InsertMember(x: string, s: seq<string>, y: string)
    ensures y in Insert(x, s) <==> y == x || y in s
  {
    InsertKeeps(x, s);
    assert y in Insert(x, s) <==> y in multiset(Insert(x, s));
    assert y in s <==> y in multiset(s);
  }

  /** `connstrings.sort()` */
  function Sort(s: seq<string>): (r: seq<string>)
    ensures Sorted(r) && multiset(r) == multiset(s)
    decreases |s|
  {
    if s == [] then []
    else
      SortStep(s, Sort(s[1..]));
      Insert(s[0], Sort(s[1..]))
  }

  lemma SortStep(s: seq<string>, r: seq<string>)
    requires s != [] && Sorted(r) && multiset(r) == multiset(s[1..])
    ensures Sorted(Insert(s[0], r)) && multiset(Insert(s[0], r)) == multiset(s)
  {
    InsertSorts(s[0], r);
    InsertKeeps(s[0], r);
    assert s == [s[0]] + s[1..];
  }

  lemma SortedAdjacent(s: seq<string>)
    requires Sorted(s) && forall i :: 0 < i < |s| ==> s[i] != s[i - 1]
    ensures Distinct(s)
  {
    forall i, j | 0 <= i < j < |s| ensures s[i] != s[j] {
      if s[i] == s[j] {
        LexLeAntisymmetric(s[i], s[i + 1]);
      }
    }
  }

  lemma {:induction false} DistinctCounts(s: seq<string>)
    ensures Distinct(s) <==> forall x :: multiset(s)[x] <= 1
    decreases |s|
  {
    if s != [] {
      var rest := s[1..];
      assert s == [s[0]] + rest;
      DistinctCounts(rest);
      assert multiset(s)[s[0]] == 1 + multiset(rest)[s[0]];
      assert forall x :: multiset(s)[x] == multiset(rest)[x] + (if x == s[0] then 1 else 0);
      if Distinct(s) {
        assert Distinct(rest);
        assert s[0] !in rest;
      }
      if forall x :: multiset(s)[x] <= 1 {
        assert forall x :: multiset(rest)[x] <= multiset(s)[x];
        assert s[0] !in multiset(rest);
        assert forall j :: 0 <= j < |rest| ==> rest[j] in multiset(rest);
      }
    }
  }

  datatype ComputeMode = Primary | Static | Replica

  datatype SpecError = NoSafekeepers | DuplicateSafekeeper(connstring: string)

  /** Accepts a primary's list exactly when it is non-empty and without repetition. */
  method Validate(mode: ComputeMode, safekeepers: seq<string>) returns (r: Result<(), SpecError>)
    ensures r.Ok? <==> mode == Primary ==> safekeepers != [] && Distinct(safekeepers)
    ensures r.Err? ==> (r.error.NoSafekeepers? <==> safekeepers == [])
    ensures r.Err? && r.error.DuplicateSafekeeper? ==> multiset(safekeepers)[r.error.connstring] >= 2
  {
    if mode != Primary {
      return Ok(());
    }
    if safekeepers == [] {
      return Err(NoSafekeepers);
    }
    var connstrings := Sort(safekeepers);
    DistinctCounts(safekeepers);
    DistinctCounts(connstrings);
    assert |connstrings| == |multiset(connstrings)| == |multiset(safekeepers)|;
    var previous := connstrings[0];
    for i := 1 to |connstrings|
      invariant previous == connstrings[i - 1]
      invariant forall j :: 0 < j < i ==> connstrings[j] != connstrings[j - 1]
    {
      var current := connstrings[i];
      if current == previous {
        assert !Distinct(connstrings);
        TwiceInMultiset(connstrings, i - 1, i);
        return Err(DuplicateSafekeeper(current));
      }
      previous := current;
    }
    SortedAdjacent(connstrings);
    r := Ok(());
  }

  lemma TwiceInMultiset(s: seq<string>, i: nat, j: nat)
    requires i < j < |s| && s[i] == s[j]
    ensures multiset(s)[s[i]] >= 2
  {
    assert s == s[..j] + s[j..];
    assert s[..j][i] in multiset(s[..j]) && s[j..][0] in multiset(s[j..]);
  }

  // ----- one quorum of answers --------------------------------------------------------------

  datatype TimelineStatus = NotFound | Found(flushLsn: nat, commitLsn: nat)

  function OkResponses(responses: seq<TimelineStatus>): seq<TimelineStatus> {
    if responses == [] then []
    else (if responses[0].Found? then [responses[0]] else []) + OkResponses(responses[1..])
  }

  lemma {:induction false} OkResponsesAll(responses: seq<TimelineStatus>)
    ensures |OkResponses(responses)| <= |responses|
    ensures |OkResponses(responses)| == |responses| <==> forall x <- responses :: x.Found?
    ensures |OkResponses(responses)| == |responses| ==> OkResponses(responses) == responses
  {
    if responses != [] {
      OkResponsesAll(responses[1..]);
      assert forall x :: x in responses <==> x == responses[0] || x in responses[1..];
    }
  }

  function Max(s: seq<nat>): (m: nat)
    requires s != []
    ensures m in s && forall x <- s :: x <= m
  {
    assert s == [s[0]] + s[1..];
    if |s| == 1 then s[0] else var m := Max(s[1..]); if m < s[0] then s[0] else m
  }

  function Min(s: seq<nat>): (m: nat)
    requires s != []
    ensures m in s && forall x <- s :: m <= x
  {
    assert s == [s[0]] + s[1..];
    if |s| == 1 then s[0] else var m := Min(s[1..]); if s[0] < m then s[0] else m
  }

  lemma MinIsMax(s: seq<nat>, v: nat)
    requires s != []
    ensures Min(s) == Max(s) == v <==> forall x <- s :: x == v
  {
    assert s[0] in s;
  }

  function CommitLsns(ok: seq<TimelineStatus>): seq<nat>
    requires forall x <- ok :: x.Found?
  {
    seq<nat>(|ok|, i requires 0 <= i < |ok| => ok[i].commitLsn)
  }

  function FlushLsns(ok: seq<TimelineStatus>): seq<nat>
    requires forall x <- ok :: x.Found?
  {
    seq<nat>(|ok|, i requires 0 <= i < |ok| => ok[i].flushLsn)
  }

  function CheckIfSynced(responses: seq<TimelineStatus>): Option<nat>
    requires responses != []
  {
    var ok := OkResponses(responses);
    OkResponsesAll(responses);
    if |ok| < |responses| then None
    else
      var commitMax, commitMin := Max(CommitLsns(ok)), Min(CommitLsns(ok));
      var flushMax, flushMin := Max(FlushLsns(ok)), Min(FlushLsns(ok));
      if commitMin != commitMax then None
      else if flushMin != flushMax then None
      else if commitMax != flushMax then None
      else Some(commitMax)
  }

  lemma CommitAt(ok: seq<TimelineStatus>, l: nat)
    requires forall x <- ok :: x.Found?
    ensures (forall x <- CommitLsns(ok) :: x == l) <==> forall i :: 0 <= i < |ok| ==> ok[i].commitLsn == l
  {
    var lsns := CommitLsns(ok);
    assert forall i :: 0 <= i < |ok| ==> lsns[i] == ok[i].commitLsn && lsns[i] in lsns;
  }

  lemma FlushAt(ok: seq<TimelineStatus>, l: nat)
    requires forall x <- ok :: x.Found?
    ensures (forall x <- FlushLsns(ok) :: x == l) <==> forall i :: 0 <= i < |ok| ==> ok[i].flushLsn == l
  {
    var lsns := FlushLsns(ok);
    assert forall i :: 0 <= i < |ok| ==> lsns[i] == ok[i].flushLsn && lsns[i] in lsns;
  }

  lemma BothAt(ok: seq<TimelineStatus>, l: nat)
    requires forall x <- ok :: x.Found?
    ensures (forall x <- ok :: x == Found(l, l)) <==>
            (forall x <- CommitLsns(ok) :: x == l) && (forall x <- FlushLsns(ok) :: x == l)
  {
    CommitAt(ok, l);
    FlushAt(ok, l);
    assert forall i :: 0 <= i < |ok| ==> ok[i] in ok;
  }

  /** Synced at `l` exactly when every answer reports `l` as both flushed and committed. */
  lemma CheckIfSyncedMeans(responses: seq<TimelineStatus>, l: nat)
    requires responses != []
    ensures CheckIfSynced(responses) == Some(l) <==> forall x <- responses :: x == Found(l, l)
  {
    OkResponsesAll(responses);
    if forall x <- responses :: x.Found? {
      MinIsMax(CommitLsns(responses), l);
      MinIsMax(FlushLsns(responses), l);
      BothAt(responses, l);
    }
  }

  // ----- the quorum loop ------------------------------------------------------------------------

  /** How one of the spawned pings ends. */
  datatype Answer = Response(status: TimelineStatus) | TaskError | TimedOut | JoinError

  function Responses(answers: seq<Answer>): seq<TimelineStatus> {
    if answers == [] then []
    else
      Responses(answers[..|answers| - 1])
      + (if answers[|answers| - 1].Response? then [answers[|answers| - 1].status] else [])
  }

  /** Task, timeout and join errors together. */
  function ErrorCount(answers: seq<Answer>): nat {
    if answers == [] then 0
    else ErrorCount(answers[..|answers| - 1]) + (if answers[|answers| - 1].Response? then 0 else 1)
  }

  /**
   The first `k` answers are where the loop stops with a quorum of responses: the `k`-th makes
   them more than half of `n`, and the errors so far are not.
   */
  predicate QuorumAt(n: nat, answers: seq<Answer>, k: nat) {
    && 0 < k <= |answers|
    && 2 * |Responses(answers[..k - 1])| <= n < 2 * |Responses(answers[..k])|
    && 2 * ErrorCount(answers[..k]) <= n
  }

  /** Every one of the first `k` answers that is a response reports `l` flushed and committed. */
  ghost predicate SyncedAt(n: nat, answers: seq<Answer>, k: nat, l: nat) {
    QuorumAt(n, answers, k) && forall x <- Responses(answers[..k]) :: x == Found(l, l)
  }

  lemma {:induction false} PrefixCounts(answers: seq<Answer>, j: nat, k: nat)
    requires j <= k <= |answers|
    ensures |Responses(answers[..j])| <= |Responses(answers[..k])|
    ensures ErrorCount(answers[..j]) <= ErrorCount(answers[..k])
    decreases k - j
  {
    if j < k {
      assert answers[..k][..k - 1] == answers[..k - 1];
      PrefixCounts(answers, j, k - 1);
    }
  }

  /** There is one place only where the loop stops so. */
  lemma QuorumUnique(n: nat, answers: seq<Answer>, j: nat, k: nat)
    requires QuorumAt(n, answers, j) && QuorumAt(n, answers, k)
    ensures j == k
  {
    if j < k {
      PrefixCounts(answers, j, k - 1);
    } else if k < j {
      PrefixCounts(answers, k, j - 1);
    }
  }

  lemma {:induction false} AllCounted(answers: seq<Answer>)
    ensures |Responses(answers)| + ErrorCount(answers) == |answers|
  {
    if answers != [] {
      AllCounted(answers[..|answers| - 1]);
    }
  }

  /** Once more than half have responded, at some answer they came to be more than half. */
  lemma {:induction false} Majority(n: nat, answers: seq<Answer>, m: nat) returns (k: nat)
    requires m <= |answers| && n < 2 * |Responses(answers[..m])|
    ensures 0 < k <= m && 2 * |Responses(answers[..k - 1])| <= n < 2 * |Responses(answers[..k])|
    decreases m
  {
    if m > 0 && n < 2 * |Responses(answers[..m - 1])| {
      k := Majority(n, answers, m - 1);
    } else {
      k := m;
    }
  }

  lemma {:induction false} PrefixResponses(answers: seq<Answer>, k: nat)
    requires k <= |answers|
    ensures forall x <- Responses(answers[..k]) :: x in Responses(answers)
    decreases |answers|
  {
    if k < |answers| {
      assert answers[..|answers| - 1][..k] == answers[..k];
      PrefixResponses(answers[..|answers| - 1], k);
    } else {
      assert answers[..k] == answers;
    }
  }

  /** All pings have ended, fewer than half of them badly, and all responses report `l` flushed and committed. */
  ghost predicate Agreed(n: nat, answers: seq<Answer>, l: nat) {
    |answers| == n && 2 * ErrorCount(answers) < n && forall x <- Responses(answers) :: x == Found(l, l)
  }

  /** Then the fast path is taken, in whatever order they ended. */
  lemma FastPathIsTaken(n: nat, answers: seq<Answer>, l: nat)
    requires Agreed(n, answers, l)
    ensures exists k: nat :: SyncedAt(n, answers, k, l)
  {
    AllCounted(answers);
    assert answers[..n] == answers;
    var k := Majority(n, answers, n);
    PrefixCounts(answers, k, n);
    PrefixResponses(answers, k);
    assert SyncedAt(n, answers, k, l);
  }

  /** `answers` is the order in which the pings of `n` safekeepers complete. */
  method CheckSafekeepersSynced(n: nat, answers: seq<Answer>) returns (r: Option<nat>)
    ensures forall l: nat :: r == Some(l) <==> exists k: nat :: SyncedAt(n, answers, k, l)
    ensures forall l: nat :: Agreed(n, answers, l) ==> r == Some(l)
  {
    var quorum := n / 2 + 1;
    var responses: seq<TimelineStatus> := [];
    var joinErrors, taskErrors, timeoutErrors := 0, 0, 0;
    var next := 0;
    while next < |answers|
      invariant next <= |answers|
      invariant responses == Responses(answers[..next])
      invariant joinErrors + taskErrors + timeoutErrors == ErrorCount(answers[..next])
      invariant joinErrors >= 0 && taskErrors >= 0 && timeoutErrors >= 0
      invariant |responses| < quorum && joinErrors + taskErrors + timeoutErrors < quorum
    {
      var answer := answers[next];
      assert answers[..next + 1][..next] == answers[..next];
      match answer {
        case Response(status) => responses := responses + [status];
        case TaskError => taskErrors := taskErrors + 1;
        case TimedOut => timeoutErrors := timeoutErrors + 1;
        case JoinError => joinErrors := joinErrors + 1;
      }
      next := next + 1;
      if |responses| >= quorum {
        break;
      }
      if joinErrors + taskErrors + timeoutErrors >= quorum {
        break;
      }
    }
    if |responses| < quorum {
      forall k: nat, l: nat ensures !SyncedAt(n, answers, k, l) {
        NoQuorumYet(n, answers, next, k);
      }
      r := None;
    } else {
      r := CheckIfSynced(responses);
      assert QuorumAt(n, answers, next);
      forall l: nat ensures r == Some(l) <==> exists k: nat :: SyncedAt(n, answers, k, l) {
        CheckIfSyncedMeans(responses, l);
        if k: nat :| SyncedAt(n, answers, k, l) {
          QuorumUnique(n, answers, next, k);
        }
        if r == Some(l) {
          assert SyncedAt(n, answers, next, l);
        }
      }
    }
    forall l: nat | Agreed(n, answers, l) ensures r == Some(l) {
      FastPathIsTaken(n, answers, l);
    }
  }

  /** The loop has stopped after `next` answers, at the end or on errors. */
  lemma NoQuorumYet(n: nat, answers: seq<Answer>, next: nat, k: nat)
    requires next <= |answers| && 2 * |Responses(answers[..next])| <= n
    requires next == |answers| || n < 2 * ErrorCount(answers[..next])
    ensures !QuorumAt(n, answers, k)
  {
    if QuorumAt(n, answers, k) {
      if k <= next {
        PrefixCounts(answers, k, next);
      } else {
        PrefixCounts(answers, next, k);
      }
    }
  }

  // ----- safety -----------------------------------------------------------------------------------

  /** One safekeeper's ping has ended. */
  datatype Arrival = Arrival(safekeeper: string, answer: Answer)

  function Answers(arrivals: seq<Arrival>): seq<Answer> {
    seq(|arrivals|, i requires 0 <= i < |arrivals| => arrivals[i].answer)
  }

  function Ids(arrivals: seq<Arrival>): seq<string> {
    seq(|arrivals|, i requires 0 <= i < |arrivals| => arrivals[i].safekeeper)
  }

  /** Every arrival belongs to a different listed safekeeper. */
  ghost predicate OneEach(safekeepers: seq<string>, arrivals: seq<Arrival>) {
    Distinct(Ids(arrivals)) && forall a <- arrivals :: a.safekeeper in safekeepers
  }

  function ToSet(s: seq<string>): set<string> {
    set x | x in s
  }

  lemma {:induction false} DistinctSize(s: seq<string>)
    requires Distinct(s)
    ensures |ToSet(s)| == |s|
    decreases |s|
  {
    if s != [] {
      DistinctSize(s[1..]);
      assert ToSet(s) == {s[0]} + ToSet(s[1..]);
      assert s[0] !in ToSet(s[1..]);
    }
  }

  /** Some arrival from `id` is a response, counted among `statuses`. */
  ghost predicate Responded(arrivals: seq<Arrival>, statuses: seq<TimelineStatus>, id: string) {
    exists a <- arrivals :: a.safekeeper == id && a.answer.Response? && a.answer.status in statuses
  }

  /** The safekeepers behind the responses, one for each response. */
  lemma {:induction false} Responders(arrivals: seq<Arrival>) returns (ids: set<string>)
    requires Distinct(Ids(arrivals))
    ensures |ids| == |Responses(Answers(arrivals))| && ids <= ToSet(Ids(arrivals))
    ensures forall id <- ids :: Responded(arrivals, Responses(Answers(arrivals)), id)
    decreases |arrivals|
  {
    if arrivals == [] {
      ids := {};
    } else {
      var init, last := arrivals[..|arrivals| - 1], arrivals[|arrivals| - 1];
      assert Answers(arrivals)[..|arrivals| - 1] == Answers(init);
      assert Ids(arrivals) == Ids(init) + [last.safekeeper];
      assert forall i :: 0 <= i < |init| ==> Ids(init)[i] == Ids(arrivals)[i];
      ids := Responders(init);
      forall id <- ids ensures Responded(arrivals, Responses(Answers(arrivals)), id) {
        var a :| a in init && a.safekeeper == id && a.answer.Response? && a.answer.status in Responses(Answers(init));
        assert a in arrivals;
      }
      assert last.safekeeper !in ToSet(Ids(init)) by {
        assert Ids(arrivals)[|init|] == last.safekeeper;
      }
      if last.answer.Response? {
        ids := ids + {last.safekeeper};
        assert last in arrivals;
      }
    }
  }

  lemma Overlap(a: set<string>, b: set<string>, all: set<string>)
    requires a <= all && b <= all && |a| + |b| > |all|
    ensures exists x :: x in a && x in b
  {
    if a * b == {} {
      assert |a + b| == |a| + |b|;
      SubsetSize(a + b, all);
      assert false;
    }
    var x :| x in a * b;
  }

  lemma {:induction false} SubsetSize(a: set<string>, b: set<string>)
    requires a <= b
    ensures |a| <= |b|
    decreases a
  {
    if a != {} {
      var x :| x in a;
      SubsetSize(a - {x}, b - {x});
    }
  }

  /** The safekeepers that had WAL up to `pos` on disk before the check began. */
  function FlushedUpTo(safekeepers: seq<string>, flushed: map<string, nat>, pos: nat): set<string> {
    set id | id in safekeepers && id in flushed && pos <= flushed[id]
  }

  /**
   If the fast path says the safekeepers are synced at `l`, no position beyond `l` was on a
   majority of them: nothing that could have been acknowledged is lost by starting there.
   */
  lemma FastPathIsSafe(safekeepers: seq<string>, arrivals: seq<Arrival>, flushed: map<string, nat>, k: nat, l: nat, pos: nat)
    requires Distinct(safekeepers) && OneEach(safekeepers, arrivals)
    requires forall a <- arrivals | a.answer.Response? && a.answer.status.Found? && a.safekeeper in flushed ::
               flushed[a.safekeeper] <= a.answer.status.flushLsn
    requires SyncedAt(|safekeepers|, Answers(arrivals), k, l)
    requires 2 * |FlushedUpTo(safekeepers, flushed, pos)| > |safekeepers|
    ensures pos <= l
  {
    var heard := arrivals[..k];
    assert Answers(heard) == Answers(arrivals)[..k];
    assert Ids(heard) == Ids(arrivals)[..k];
    var ids := Responders(heard);
    DistinctSize(safekeepers);
    forall id <- ids ensures id in ToSet(safekeepers) {
      assert Responded(heard, Responses(Answers(heard)), id);
      var a :| a in heard && a.safekeeper == id;
      assert a in arrivals;
    }
    Overlap(ids, FlushedUpTo(safekeepers, flushed, pos), ToSet(safekeepers));
    var id :| id in ids && id in FlushedUpTo(safekeepers, flushed, pos);
    assert Responded(heard, Responses(Answers(heard)), id);
    var a :| a in heard && a.safekeeper == id && a.answer.Response? && a.answer.status in Responses(Answers(heard));
    assert a in arrivals;
  }

  /** The order of arrival decides whether the fast path is taken, never at which LSN. */
  lemma OrdersAgree(safekeepers: seq<string>, first: seq<Arrival>, second: seq<Arrival>, answerOf: map<string, Answer>,
                    j: nat, k: nat, l: nat, m: nat)
    requires Distinct(safekeepers) && OneEach(safekeepers, first) && OneEach(safekeepers, second)
    requires forall a <- first + second :: a.safekeeper in answerOf && answerOf[a.safekeeper] == a.answer
    requires SyncedAt(|safekeepers|, Answers(first), j, l) && SyncedAt(|safekeepers|, Answers(second), k, m)
    ensures l == m
  {
    var heard1, heard2 := first[..j], second[..k];
    assert Answers(heard1) == Answers(first)[..j] && Ids(heard1) == Ids(first)[..j];
    assert Answers(heard2) == Answers(second)[..k] && Ids(heard2) == Ids(second)[..k];
    var ids1 := Responders(heard1);
    var ids2 := Responders(heard2);
    DistinctSize(safekeepers);
    forall id <- ids1 + ids2 ensures id in ToSet(safekeepers) {
      assert Responded(heard1, Responses(Answers(heard1)), id) || Responded(heard2, Responses(Answers(heard2)), id);
      var a :| (a in heard1 || a in heard2) && a.safekeeper == id;
      assert a in first || a in second;
    }
    Overlap(ids1, ids2, ToSet(safekeepers));
    var id :| id in ids1 && id in ids2;
    assert Responded(heard1, Responses(Answers(heard1)), id) && Responded(heard2, Responses(Answers(heard2)), id);
    var a1 :| a1 in heard1 && a1.safekeeper == id && a1.answer.Response? && a1.answer.status in Responses(Answers(heard1));
    var a2 :| a2 in heard2 && a2.safekeeper == id && a2.answer.Response? && a2.answer.status in Responses(Answers(heard2));
    assert a1 in first + second && a2 in first + second;
  }

  /** Without the uniqueness check one lagging safekeeper listed three times would pass for a quorum. */
  lemma DuplicatesWouldBeUnsafe()
    returns (listed: seq<string>, servers: seq<string>, arrivals: seq<Arrival>, flushed: map<string, nat>)
    ensures ToSet(listed) == ToSet(servers) && Distinct(servers)
    ensures |arrivals| <= |listed| && forall a <- arrivals :: a.safekeeper in listed
    ensures forall a <- arrivals :: a.safekeeper in flushed && a.answer == Response(Found(flushed[a.safekeeper], 0))
    ensures SyncedAt(|listed|, Answers(arrivals), 3, 0)
    ensures !Distinct(listed) && 2 * |FlushedUpTo(servers, flushed, 10)| > |servers|
  {
    listed := ["a", "a", "a", "b", "c"];
    servers := ["a", "b", "c"];
    arrivals := [Arrival("a", Response(Found(0, 0))), Arrival("a", Response(Found(0, 0))), Arrival("a", Response(Found(0, 0)))];
    flushed := map["a" := 0, "b" := 10, "c" := 10];
    var ok := Response(Found(0, 0));
    assert "a"[0] != "b"[0] && "b"[0] != "c"[0] && "a"[0] != "c"[0];
    assert Answers(arrivals)[..3] == [ok, ok, ok];
    assert [ok, ok, ok][..2] == [ok, ok] && [ok, ok][..1] == [ok] && [ok][..0] == [];
    assert Responses([ok]) == [Found(0, 0)];
    assert Responses([ok, ok]) == [Found(0, 0), Found(0, 0)];
    assert Responses([ok, ok, ok]) == [Found(0, 0), Found(0, 0), Found(0, 0)];
    assert ErrorCount([ok]) == 0;
    assert ErrorCount([ok, ok]) == 0;
    assert Answers(arrivals)[..2] == [ok, ok] && |Responses(Answers(arrivals)[..2])| == 2;
    assert SyncedAt(|listed|, Answers(arrivals), 3, 0);
    assert listed[0] == listed[1];
    assert FlushedUpTo(servers, flushed, 10) == {"b", "c"};
    assert ToSet(listed) == {"a", "b", "c"} == ToSet(servers);
  }
}
