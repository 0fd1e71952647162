/**
 LSN leases of a static compute: all shards must grant, and the lease is renewed before
 the first of them runs out.  Times and durations are in nanoseconds.
 */
module LsnLease {
  import opened Prelude

  /** What one pageserver says. */
  datatype Answer = Granted(validUntil: nat) | Refused | Failed

  datatype LeaseError = RequestFailed

  function Flatten(shards: seq<seq<Answer>>): seq<Answer> {
    if shards == [] then [] else Flatten(shards[..|shards| - 1]) + shards[|shards| - 1]
  }

  /** The order on `Option`: nothing is less than something. */
  predicate OptionLe(a: Option<nat>, b: Option<nat>) {
    a.None? || (b.Some? && a.value <= b.value)
  }

  /** `leases.into_iter().min().flatten()` */
  function MinLease(leases: seq<Option<nat>>): Option<nat> {
    if leases == [] then None
    else if |leases| == 1 then leases[0]
    else
      var m := MinLease(leases[..|leases| - 1]);
      if OptionLe(m, leases[|leases| - 1]) then m else leases[|leases| - 1]
  }

  /** An expiry only if at least one lease was asked for and all were granted, and then the earliest. */
  lemma {:induction false} MinLeaseMeans(leases: seq<Option<nat>>, t: nat)
    ensures MinLease(leases) == Some(t) <==>
            Some(t) in leases && forall l <- leases :: l.Some? && t <= l.value
  {
    if |leases| > 1 {
      var init, last := leases[..|leases| - 1], leases[|leases| - 1];
      assert leases == init + [last];
      MinLeaseMeans(init, t);
      if MinLease(init).Some? {
        MinLeaseMeans(init, MinLease(init).value);
      }
      if last.Some? {
        MinLeaseMeans(init, last.value);
      }
      MinLeaseNone(init);
    } else if |leases| == 1 {
      assert leases == [leases[0]];
    }
  }

  lemma {:induction false} MinLeaseNone(leases: seq<Option<nat>>)
    requires leases != []
    ensures MinLease(leases).None? <==> None in leases
  {
    if |leases| > 1 {
      assert leases == leases[..|leases| - 1] + [leases[|leases| - 1]];
      MinLeaseNone(leases[..|leases| - 1]);
    } else {
      assert leases == [leases[0]];
    }
  }

  /** `try_acquire_lsn_lease`: the answers of every pageserver of every shard, asked in order. */
  method TryAcquire(shards: seq<seq<Answer>>) returns (r: Result<Option<nat>, LeaseError>)
    ensures r.Err? <==> Failed in Flatten(shards)
    ensures forall t: nat :: r == Ok(Some(t)) <==>
              Granted(t) in Flatten(shards) && forall a <- Flatten(shards) :: a.Granted? && t <= a.validUntil
  {
    var leases: seq<Option<nat>> := [];
    for i := 0 to |shards|
      invariant Collected(Flatten(shards[..i]), leases)
    {
      assert shards[..i + 1][..i] == shards[..i];
      var shard := shards[i];
      for j := 0 to |shard|
        invariant Collected(Flatten(shards[..i]) + shard[..j], leases)
      {
        assert Flatten(shards[..i]) + shard[..j + 1] == Flatten(shards[..i]) + shard[..j] + [shard[j]];
        match shard[j] {
          case Failed =>
            assert shard[j] in Flatten(shards[..i + 1]);
            FlattenPrefix(shards, i + 1);
            return Err(RequestFailed);
          case Refused => leases := leases + [None];
          case Granted(t) => leases := leases + [Some(t)];
        }
      }
      assert shard[..|shard|] == shard;
    }
    assert shards[..|shards|] == shards;
    r := Ok(MinLease(leases));
    forall t: nat
      ensures r == Ok(Some(t)) <==>
              Granted(t) in Flatten(shards) && forall a <- Flatten(shards) :: a.Granted? && t <= a.validUntil
    {
      MinLeaseMeans(leases, t);
      CollectedMeans(Flatten(shards), leases, t);
    }
  }

  /** `leases` are the answers, none of them an error. */
  predicate Collected(answers: seq<Answer>, leases: seq<Option<nat>>) {
    |answers| == |leases| && forall i :: 0 <= i < |answers| ==>
      !answers[i].Failed? && leases[i] == (if answers[i].Granted? then Some(answers[i].validUntil) else None)
  }

  lemma CollectedMeans(answers: seq<Answer>, leases: seq<Option<nat>>, t: nat)
    requires Collected(answers, leases)
    ensures Some(t) in leases <==> Granted(t) in answers
    ensures (forall l <- leases :: l.Some? && t <= l.value) <==> forall a <- answers :: a.Granted? && t <= a.validUntil
  {
    if Granted(t) in answers {
      var i :| 0 <= i < |answers| && answers[i] == Granted(t);
      assert leases[i] == Some(t);
    }
    if forall l <- leases :: l.Some? && t <= l.value {
      assert forall i :: 0 <= i < |leases| ==> leases[i] in leases;
    }
    if forall a <- answers :: a.Granted? && t <= a.validUntil {
      assert forall i :: 0 <= i < |answers| ==> answers[i] in answers;
    }
  }

  lemma {:induction false} FlattenPrefix(shards: seq<seq<Answer>>, i: nat)
    requires i <= |shards|
    ensures forall a <- Flatten(shards[..i]) :: a in Flatten(shards)
    decreases |shards|
  {
    if i < |shards| {
      var init := shards[..|shards| - 1];
      assert init[..i] == shards[..i];
      FlattenPrefix(init, i);
    } else {
      assert shards[..i] == shards;
    }
  }

  // ----- when to renew ---------------------------------------------------------------------------

  const SECOND: nat := 1_000_000_000

  function MaxOf(a: nat, b: nat): nat { if a < b then b else a }

  function MinOf(a: nat, b: nat): nat { if a < b then a else b }

  /** `duration_since(now)`, zero when already past. */
  function ValidFor(validUntil: nat, now: nat): nat {
    if validUntil >= now then validUntil - now else 0
  }

  function SleepFor(valid: nat): nat {
    MaxOf(if valid >= 60 * SECOND then valid - 60 * SECOND else 0, valid / 2)
  }

  /** What is left of the lease when the sleep is over: a minute, or half of it if that is less. */
  lemma SleepLeaves(valid: nat)
    ensures SleepFor(valid) <= valid
    ensures valid - SleepFor(valid) == MinOf(60 * SECOND, valid - valid / 2)
  {
  }

  /** The comment in the source promises at most half of the validity; that holds exactly up to two minutes. */
  lemma SleepIsAtMostHalfExactlyWhen(valid: nat)
    ensures SleepFor(valid) <= valid / 2 <==> valid <= 120 * SECOND
  {
  }

  /** The renewal starts before the lease of any shard has run out, if the shortest one had not when it was granted. */
  lemma RenewedInTime(shards: seq<seq<Answer>>, until: nat, now: nat)
    requires Granted(until) in Flatten(shards) && forall a <- Flatten(shards) :: a.Granted? && until <= a.validUntil
    requires now < until
    ensures forall a <- Flatten(shards) :: now + SleepFor(ValidFor(until, now)) < a.validUntil
  {
    SleepLeaves(ValidFor(until, now));
  }

  // ----- retries -------------------------------------------------------------------------------------

  /** The delay before retry `k`, in milliseconds. */
  function RetryPeriod(k: nat): real {
    if k == 0 then 500.0
    else var next := RetryPeriod(k - 1) * 1.5; if next < 60000.0 then next else 60000.0
  }

  function Growth(k: nat): real {
    if k == 0 then 500.0 else Growth(k - 1) * 1.5
  }

  /** The delays are the geometric series, cut off at a minute. */
  lemma {:induction false} RetryPeriodMeans(k: nat)
    ensures RetryPeriod(k) == (if Growth(k) < 60000.0 then Growth(k) else 60000.0)
    ensures 500.0 <= RetryPeriod(k) <= 60000.0 && Growth(k) >= 500.0
    ensures k > 0 ==> RetryPeriod(k - 1) <= RetryPeriod(k)
  {
    if k > 0 {
      RetryPeriodMeans(k - 1);
    }
  }

  /** The delay as slept: whole milliseconds. */
  function RetryWait(k: nat): (r: nat)
    ensures 500 <= r <= 60000
    ensures r as real <= (if Growth(k) < 60000.0 then Growth(k) else 60000.0) < r as real + 1.0
  {
    RetryPeriodMeans(k);
    RetryPeriod(k).Floor
  }

  datatype Acquired = Lease(validUntil: nat) | BehindGcCutoff | StillTrying

  /** The retry loop over the outcomes of its first attempts; `waits` are the milliseconds it means to wait. */
  method AcquireWithRetry(outcomes: seq<Result<Option<nat>, LeaseError>>) returns (r: Acquired, waits: seq<int>)
    ensures |waits| <= |outcomes| && forall i :: 0 <= i < |waits| ==> outcomes[i].Err?
    ensures forall i :: 0 <= i < |waits| ==> waits[i] == RetryWait(i) && 500 <= waits[i] <= 60000
    ensures r.StillTrying? <==> |waits| == |outcomes|
    ensures !r.StillTrying? ==>
              && outcomes[|waits|].Ok?
              && r == (if outcomes[|waits|].value.Some? then Lease(outcomes[|waits|].value.value) else BehindGcCutoff)
  {
    waits := [];
    var retryPeriod := 500.0;
    for attempts := 0 to |outcomes|
      invariant |waits| == attempts && retryPeriod == RetryPeriod(attempts)
      invariant forall i :: 0 <= i < attempts ==> outcomes[i].Err?
      invariant forall i :: 0 <= i < attempts ==> waits[i] == RetryWait(i) && 500 <= waits[i] <= 60000
    {
      match outcomes[attempts] {
        case Ok(Some(until)) => return Lease(until), waits;
        case Ok(None) => return BehindGcCutoff, waits;
        case Err(_) =>
          waits := waits + [retryPeriod.Floor];
          retryPeriod := retryPeriod * 1.5;
          retryPeriod := if retryPeriod < 60000.0 then retryPeriod else 60000.0;
      }
    }
    r := StillTrying;
  }

  // ----- round after round -----------------------------------------------------------------------------

  const MILLISECOND: nat := 1_000_000

  /** A failed request, and by how much the wait after it was cut short because the pageservers changed. */
  datatype Failure = Failure(took: nat, cut: nat)

  /**
   One round of `lsn_lease_bg_task`: the failed requests, how long the one that was granted
   took, until when it was granted, and by how much the sleep after it was cut short.
   */
  datatype Round = Round(failed: seq<Failure>, took: nat, validUntil: nat, cut: nat)

  /** What a change of the pageservers leaves of a wait. */
  function CutShort(wait: nat, cut: nat): nat {
    if cut <= wait then wait - cut else 0
  }

  /** From the first attempt to the last retry. */
  function Tried(failed: seq<Failure>): nat {
    if failed == [] then 0
    else
      var k := |failed| - 1;
      Tried(failed[..k]) + failed[k].took + CutShort(RetryWait(k) * MILLISECOND, failed[k].cut)
  }

  /** From the first attempt to the grant. */
  function Spent(r: Round): nat {
    Tried(r.failed) + r.took
  }

  function Slept(valid: nat, cut: nat): nat {
    CutShort(SleepFor(valid), cut)
  }

  /** When the lease of round `i` is granted. */
  function GrantedAt(start: nat, rounds: seq<Round>, i: nat): nat
    requires i < |rounds|
  {
    if i == 0 then start + Spent(rounds[0])
    else
      var before := GrantedAt(start, rounds, i - 1);
      before + Slept(ValidFor(rounds[i - 1].validUntil, before), rounds[i - 1].cut) + Spent(rounds[i])
  }

  /** What the sleep leaves of the lease of round `i`. */
  function Remaining(start: nat, rounds: seq<Round>, i: nat): nat
    requires i < |rounds|
  {
    var valid := ValidFor(rounds[i].validUntil, GrantedAt(start, rounds, i));
    MinOf(60 * SECOND, valid - valid / 2) + MinOf(rounds[i].cut, SleepFor(valid))
  }

  /** Every lease was renewed before it had run out. */
  ghost predicate NeverLapses(start: nat, rounds: seq<Round>) {
    HeldUpTo(start, rounds, |rounds|)
  }

  ghost predicate HeldUpTo(start: nat, rounds: seq<Round>, n: nat)
    requires n <= |rounds|
  {
    forall i :: 0 < i < n ==> GrantedAt(start, rounds, i) < rounds[i - 1].validUntil
  }

  lemma RoundHeldExactlyWhen(start: nat, rounds: seq<Round>, i: nat)
    requires 0 < i < |rounds|
    ensures GrantedAt(start, rounds, i) < rounds[i - 1].validUntil <==> Spent(rounds[i]) < Remaining(start, rounds, i - 1)
  {
    SleepLeaves(ValidFor(rounds[i - 1].validUntil, GrantedAt(start, rounds, i - 1)));
  }

  /** Over any number of rounds the lease is held throughout exactly when each renewal fits into what the sleep left. */
  lemma HeldExactlyWhen(start: nat, rounds: seq<Round>)
    ensures NeverLapses(start, rounds) <==>
            forall i :: 0 < i < |rounds| ==> Spent(rounds[i]) < Remaining(start, rounds, i - 1)
  {
    forall i: nat | 0 < i < |rounds|
      ensures GrantedAt(start, rounds, i) < rounds[i - 1].validUntil <==> Spent(rounds[i]) < Remaining(start, rounds, i - 1)
    {
      RoundHeldExactlyWhen(start, rounds, i);
    }
  }

  /** Milliseconds of `k` full waits. */
  function Waited(k: nat): nat {
    if k == 0 then 0 else Waited(k - 1) + RetryWait(k - 1)
  }

  /** How long the failed requests took. */
  function Took(failed: seq<Failure>): nat {
    if failed == [] then 0 else Took(failed[..|failed| - 1]) + failed[|failed| - 1].took
  }

  /** What changes of the pageservers saved of the waits. */
  function Saved(failed: seq<Failure>): nat {
    if failed == [] then 0
    else Saved(failed[..|failed| - 1]) + MinOf(failed[|failed| - 1].cut, RetryWait(|failed| - 1) * MILLISECOND)
  }

  lemma {:induction false} TriedExactly(failed: seq<Failure>)
    ensures Tried(failed) + Saved(failed) == Took(failed) + Waited(|failed|) * MILLISECOND
  {
    if failed != [] {
      TriedExactly(failed[..|failed| - 1]);
    }
  }

  /** The requests of one round with the waits between them: all of them, less what was cut short. */
  method AcquireRound(now0: nat, r: Round) returns (now: nat)
    ensures now == now0 + Spent(r)
    ensures now + Saved(r.failed) == now0 + Took(r.failed) + r.took + Waited(|r.failed|) * MILLISECOND
  {
    TriedExactly(r.failed);
    now := now0;
    var retryPeriod := 500.0;
    for attempts := 0 to |r.failed|
      invariant retryPeriod == RetryPeriod(attempts)
      invariant now == now0 + Tried(r.failed[..attempts])
    {
      assert r.failed[..attempts + 1][..attempts] == r.failed[..attempts];
      now := now + r.failed[attempts].took;
      assert retryPeriod.Floor == RetryWait(attempts);
      now := now + CutShort(retryPeriod.Floor * MILLISECOND, r.failed[attempts].cut);
      retryPeriod := retryPeriod * 1.5;
      retryPeriod := if retryPeriod < 60000.0 then retryPeriod else 60000.0;
    }
    assert r.failed[..|r.failed|] == r.failed;
    now := now + r.took;
  }

  /** The renewal loop over its first rounds; `held` tells whether any lease had run out when the next was granted. */
  method LsnLeaseBgTask(start: nat, rounds: seq<Round>) returns (held: bool)
    ensures held <==> NeverLapses(start, rounds)
    ensures held <==> forall i :: 0 < i < |rounds| ==> Spent(rounds[i]) < Remaining(start, rounds, i - 1)
  {
    held := true;
    var now := start;
    for i := 0 to |rounds|
      invariant i == 0 ==> now == start
      invariant i > 0 ==>
                  var granted := GrantedAt(start, rounds, i - 1);
                  now == granted + Slept(ValidFor(rounds[i - 1].validUntil, granted), rounds[i - 1].cut)
      invariant held <==> HeldUpTo(start, rounds, i)
    {
      now := AcquireRound(now, rounds[i]);
      assert now == GrantedAt(start, rounds, i);
      if i > 0 && now >= rounds[i - 1].validUntil {
        held := false;
      }
      var valid := ValidFor(rounds[i].validUntil, now);
      now := now + Slept(valid, rounds[i].cut);
    }
    HeldExactlyWhen(start, rounds);
  }

  // ----- how many failures in a row are survived -----------------------------------------------------------

  predicate Instant(failed: seq<Failure>) {
    forall f <- failed :: f.took == 0
  }

  predicate Uncut(failed: seq<Failure>) {
    forall f <- failed :: f.cut == 0
  }

  /** Cutting waits short only ever helps. */
  lemma {:induction false} TriedAtMost(failed: seq<Failure>)
    requires Instant(failed)
    ensures Tried(failed) <= Waited(|failed|) * MILLISECOND
    ensures Uncut(failed) ==> Tried(failed) == Waited(|failed|) * MILLISECOND
  {
    if failed != [] {
      var k := |failed| - 1;
      assert failed[k] in failed && forall f <- failed[..k] :: f in failed;
      TriedAtMost(failed[..k]);
    }
  }

  lemma {:induction false} WaitedBounds(k: nat)
    requires k > 0 ==> Growth(k - 1) < 60000.0
    ensures 2.0 * (Growth(k) - 500.0) - k as real <= Waited(k) as real <= 2.0 * (Growth(k) - 500.0)
  {
    if k > 0 {
      RetryPeriodMeans(k - 1);
      if k > 1 {
        RetryPeriodMeans(k - 2);
      }
      WaitedBounds(k - 1);
    }
  }

  lemma {:induction false} WaitedGrows(j: nat, k: nat)
    requires j <= k
    ensures Waited(j) <= Waited(k)
    decreases k
  {
    if j < k {
      WaitedGrows(j, k - 1);
    }
  }

  lemma TenAndEleven()
    ensures Waited(10) < 60000 < Waited(11)
  {
    assert Growth(1) == 750.0 && Growth(2) == 1125.0 && Growth(3) == 1687.5 && Growth(4) == 2531.25;
    assert Growth(5) == 3796.875 && Growth(6) == 5695.3125 && Growth(7) == 8542.96875 && Growth(8) == 12814.453125;
    assert Growth(9) == 19221.6796875 && Growth(10) == 28832.51953125 && Growth(11) == 43248.779296875;
    WaitedBounds(10);
    WaitedBounds(11);
  }

  /**
   With a lease of two minutes or more and requests that take no time, a renewal survives up to
   ten failures in a row, and no more if it waits in full after each.
   */
  lemma TenFailuresSurvived(start: nat, rounds: seq<Round>, i: nat)
    requires 0 < i < |rounds| && rounds[i - 1].cut == 0 && rounds[i].took == 0 && Instant(rounds[i].failed)
    requires ValidFor(rounds[i - 1].validUntil, GrantedAt(start, rounds, i - 1)) >= 120 * SECOND
    ensures |rounds[i].failed| <= 10 ==> GrantedAt(start, rounds, i) < rounds[i - 1].validUntil
    ensures Uncut(rounds[i].failed) ==> (GrantedAt(start, rounds, i) < rounds[i - 1].validUntil <==> |rounds[i].failed| <= 10)
  {
    RoundHeldExactlyWhen(start, rounds, i);
    TenAndEleven();
    TriedAtMost(rounds[i].failed);
    var k := |rounds[i].failed|;
    if k <= 10 {
      WaitedGrows(k, 10);
    } else {
      WaitedGrows(11, k);
    }
  }
}
