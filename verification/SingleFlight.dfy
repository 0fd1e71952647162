/**
 Requests that must not overlap: prewarming and offloading the local file cache
 (`compute_prewarm.rs`) and promoting a replica (`compute_promote.rs`).
 */
module SingleFlight {
  import opened Prelude

  // ----- prewarm and offload ----------------------------------------------------------------

  datatype PrewarmOutcome = PrewarmCompleted | PrewarmSkipped | PrewarmFailed | PrewarmCancelled

  datatype PrewarmState = NotPrewarmed | Prewarming | Prewarmed(outcome: PrewarmOutcome)

  datatype OffloadState = NotOffloaded | Offloading | Offloaded(ok: bool)

  /** What the mutex protects; cancellation tokens are numbered. */
  datatype Cell = Cell(prewarm: PrewarmState, offload: OffloadState, token: nat, cancelled: set<nat>)

  /** Swap in "in progress" and look at what was there; the result says whether to start. */
  function PrewarmSection(c: Cell): (Cell, bool) {
    (c.(prewarm := Prewarming), c.prewarm != Prewarming)
  }

  function OffloadSection(c: Cell): (Cell, bool) {
    (c.(offload := Offloading), c.offload != Offloading)
  }

  /** A prewarm that ended by cancellation has used up its token. */
  function PrewarmDoneSection(c: Cell, outcome: PrewarmOutcome): Cell {
    c.(prewarm := Prewarmed(outcome), token := if outcome == PrewarmCancelled then c.token + 1 else c.token)
  }

  function CancelSection(c: Cell): Cell {
    c.(cancelled := c.cancelled + {c.token})
  }

  /** `tasks` holds the token of each running prewarm. */
  datatype Lfc = Lfc(
    cell: Cell,
    tasks: seq<nat>,
    prewarmsAccepted: nat,
    prewarmsEnded: nat,
    offloadTasks: nat,
    offloadsAccepted: nat,
    offloadsEnded: nat)

  const START: Lfc := Lfc(Cell(NotPrewarmed, NotOffloaded, 0, {}), [], 0, 0, 0, 0, 0)

  datatype Event =
    | PrewarmRequested
    | PrewarmEnds(outcome: PrewarmOutcome)
    | CancelRequested
    | OffloadRequested        // over HTTP or by the periodic worker
    | OffloadEnds(ok: bool)
    | OffloadAborted          // the periodic worker is killed in the middle

  predicate Enabled(s: Lfc, e: Event) {
    match e
    case PrewarmEnds(outcome) => s.tasks != [] && (outcome == PrewarmCancelled ==> s.tasks[0] in s.cell.cancelled)
    case OffloadEnds(_) => s.offloadTasks > 0
    case OffloadAborted => s.offloadTasks > 0
    case _ => true
  }

  /** Whether a request would be accepted now. */
  predicate AcceptsPrewarm(s: Lfc) { PrewarmSection(s.cell).1 }

  predicate AcceptsOffload(s: Lfc) { OffloadSection(s.cell).1 }

  function Next(s: Lfc, e: Event): Lfc
    requires Enabled(s, e)
  {
    match e
    case PrewarmRequested =>
      var (cell, start) := PrewarmSection(s.cell);
      if start then s.(cell := cell, tasks := s.tasks + [s.cell.token], prewarmsAccepted := s.prewarmsAccepted + 1)
      else s.(cell := cell)
    case PrewarmEnds(outcome) =>
      s.(cell := PrewarmDoneSection(s.cell, outcome), tasks := s.tasks[1..], prewarmsEnded := s.prewarmsEnded + 1)
    case CancelRequested => s.(cell := CancelSection(s.cell))
    case OffloadRequested =>
      var (cell, start) := OffloadSection(s.cell);
      if start then s.(cell := cell, offloadTasks := s.offloadTasks + 1, offloadsAccepted := s.offloadsAccepted + 1)
      else s.(cell := cell)
    case OffloadEnds(ok) =>
      s.(cell := s.cell.(offload := Offloaded(ok)), offloadTasks := s.offloadTasks - 1, offloadsEnded := s.offloadsEnded + 1)
    case OffloadAborted => s.(offloadTasks := s.offloadTasks - 1, offloadsEnded := s.offloadsEnded + 1)
  }

  function Run(es: seq<Event>): Option<Lfc> {
    if es == [] then Some(START)
    else
      var before := Run(es[..|es| - 1]);
      if before.Some? && Enabled(before.value, es[|es| - 1]) then Some(Next(before.value, es[|es| - 1])) else None
  }

  /** A cancellation was requested after the last prewarm that ended by it: the token in hand is spent. */
  predicate CancelOutstanding(es: seq<Event>) {
    es != [] &&
    (es[|es| - 1] == CancelRequested ||
     (es[|es| - 1] != PrewarmEnds(PrewarmCancelled) && CancelOutstanding(es[..|es| - 1])))
  }

  predicate PrewarmInv(s: Lfc) {
    && |s.tasks| <= 1 && (s.cell.prewarm == Prewarming <==> |s.tasks| == 1)
    && s.prewarmsAccepted == s.prewarmsEnded + |s.tasks|
    && (forall t <- s.tasks :: t == s.cell.token)
    && (forall t <- s.cell.cancelled :: t <= s.cell.token)
  }

  predicate OffloadInv(s: Lfc, aborted: bool) {
    && s.offloadTasks <= 1 && (s.offloadTasks == 1 ==> s.cell.offload == Offloading)
    && (s.cell.offload == Offloading ==> s.offloadTasks == 1 || aborted)
    && (aborted ==> s.cell.offload == Offloading && s.offloadTasks == 0)
    && s.offloadsAccepted == s.offloadsEnded + s.offloadTasks
  }

  lemma NextKeeps(s: Lfc, e: Event, aborted: bool)
    requires Enabled(s, e) && PrewarmInv(s) && OffloadInv(s, aborted)
    ensures PrewarmInv(Next(s, e)) && OffloadInv(Next(s, e), aborted || e == OffloadAborted)
  {
  }

  /**
   In every interleaving at most one prewarm and one offload are in flight, each accepted
   request started exactly one, and a state of "in progress" means exactly that, but for an
   offload whose worker was killed: its state stays "in progress" for good.
   */
  lemma {:induction false} AtMostOneInFlight(es: seq<Event>)
    requires Run(es).Some?
    ensures var s := Run(es).value;
            && PrewarmInv(s) && OffloadInv(s, OffloadAborted in es)
            && (s.cell.token in s.cell.cancelled <==> CancelOutstanding(es))
  {
    if es != [] {
      var init, e := es[..|es| - 1], es[|es| - 1];
      AtMostOneInFlight(init);
      NextKeeps(Run(init).value, e, OffloadAborted in init);
      assert es == init + [e];
    }
  }

  /** A request is refused exactly while another is in flight; after an aborted offload, every later offload is. */
  lemma RefusedExactlyWhileInFlight(es: seq<Event>)
    requires Run(es).Some?
    ensures AcceptsPrewarm(Run(es).value) <==> Run(es).value.tasks == []
    ensures AcceptsOffload(Run(es).value) <==> Run(es).value.offloadTasks == 0 && OffloadAborted !in es
  {
    AtMostOneInFlight(es);
  }

  /** What a look at the history says of prewarming: the last start or end counts. */
  function LastPrewarm(es: seq<Event>): PrewarmState {
    if es == [] then NotPrewarmed
    else
      match es[|es| - 1]
      case PrewarmRequested => Prewarming
      case PrewarmEnds(outcome) => Prewarmed(outcome)
      case _ => LastPrewarm(es[..|es| - 1])
  }

  function LastOffload(es: seq<Event>): OffloadState {
    if es == [] then NotOffloaded
    else
      match es[|es| - 1]
      case OffloadRequested => Offloading
      case OffloadEnds(ok) => Offloaded(ok)
      case _ => LastOffload(es[..|es| - 1])
  }

  /** The states reported are those: in progress since the last request, or how the last one ended. */
  lemma {:induction false} ReportsTheLast(es: seq<Event>)
    requires Run(es).Some?
    ensures Run(es).value.cell.prewarm == LastPrewarm(es) && Run(es).value.cell.offload == LastOffload(es)
  {
    if es != [] {
      ReportsTheLast(es[..|es| - 1]);
    }
  }

  /**
   A prewarm starts with a usable token exactly when no cancellation is outstanding: one that
   came when nothing was running, or too late, is not forgotten and hits the next prewarm.
   */
  lemma PrewarmStartsUncancelledExactlyWhen(es: seq<Event>)
    requires Run(es).Some? && AcceptsPrewarm(Run(es).value)
    ensures var s := Next(Run(es).value, PrewarmRequested);
            |s.tasks| == 1 && (s.tasks[0] !in s.cell.cancelled <==> !CancelOutstanding(es))
  {
    AtMostOneInFlight(es);
  }

  /** The fields of `ComputeState` as the methods update them in place. */
  class LfcFields {
    var prewarm: PrewarmState
    var offload: OffloadState
    var token: nat
    var cancelled: set<nat>

    ghost function View(): Cell
      reads this
    {
      Cell(prewarm, offload, token, cancelled)
    }

    constructor ()
      ensures View() == START.cell
    {
      prewarm, offload, token, cancelled := NotPrewarmed, NotOffloaded, 0, {};
    }

    /** `task` is the token the spawned prewarm listens to. */
    method PrewarmLfc() returns (accepted: bool, task: nat)
      modifies `prewarm
      ensures (View(), accepted) == PrewarmSection(old(View())) && task == token
    {
      task := token;
      var previous := prewarm;
      prewarm := Prewarming;
      accepted := previous != Prewarming;
    }

    method PrewarmDone(outcome: PrewarmOutcome)
      modifies `prewarm, `token
      ensures View() == PrewarmDoneSection(old(View()), outcome)
    {
      if outcome == PrewarmCancelled {
        token := token + 1;
      }
      prewarm := Prewarmed(outcome);
    }

    method OffloadLfc() returns (accepted: bool)
      modifies `offload
      ensures (View(), accepted) == OffloadSection(old(View()))
    {
      var previous := offload;
      offload := Offloading;
      accepted := previous != Offloading;
    }

    method CancelPrewarm()
      modifies `cancelled
      ensures View() == CancelSection(old(View()))
    {
      cancelled := cancelled + {token};
    }
  }

  // ----- promotion -------------------------------------------------------------------------------

  datatype PromoteResult = PromoteCompleted | PromoteFailed(error: string)

  /** The watch channel: `version` counts the values sent after the initial one. */
  datatype Channel = Channel(version: nat, value: Option<PromoteResult>, closed: bool)

  /** A caller waits with a clone of the stored receiver, which has seen version 0 only. */
  datatype Caller = Waiting(seen: nat) | Returned(result: PromoteResult)

  datatype Promotion = Promotion(channel: Option<Channel>, started: nat, running: bool, callers: map<nat, Caller>)

  datatype PromoteEvent =
    | Called(caller: nat)
    | TaskSends(result: PromoteResult)
    | TaskDies                 // the sender is dropped without sending
    | CallerWakes(caller: nat)

  const SENDER_DROPPED: PromoteResult := PromoteFailed("promote sender dropped")

  predicate CanWake(s: Promotion, caller: nat) {
    && caller in s.callers && s.callers[caller].Waiting? && s.channel.Some?
    && (s.channel.value.version > s.callers[caller].seen || s.channel.value.closed)
  }

  predicate PromoteEnabled(s: Promotion, e: PromoteEvent) {
    match e
    case Called(c) => c !in s.callers
    case TaskSends(_) => s.running && s.channel.Some?
    case TaskDies => s.running && s.channel.Some?
    case CallerWakes(c) => CanWake(s, c)
  }

  function PromoteNext(s: Promotion, e: PromoteEvent): Promotion
    requires PromoteEnabled(s, e)
  {
    match e
    case Called(c) =>
      // get_or_insert_with under the lock
      var s1 := if s.channel.Some? then s
                else s.(channel := Some(Channel(0, None, false)), started := s.started + 1, running := true);
      s1.(callers := s1.callers[c := Waiting(0)])
    case TaskSends(r) =>
      s.(channel := Some(Channel(s.channel.value.version + 1, Some(r), true)), running := false)
    case TaskDies => s.(channel := Some(s.channel.value.(closed := true)), running := false)
    case CallerWakes(c) =>
      var channel := s.channel.value;
      // `changed` reports an unseen value even when the sender is gone
      var result := if channel.version > s.callers[c].seen && channel.value.Some? then channel.value.value
                    else SENDER_DROPPED;
      s.(callers := s.callers[c := Returned(result)])
  }

  function PromoteRun(es: seq<PromoteEvent>): Option<Promotion> {
    if es == [] then Some(Promotion(None, 0, false, map[]))
    else
      var before := PromoteRun(es[..|es| - 1]);
      if before.Some? && PromoteEnabled(before.value, es[|es| - 1]) then Some(PromoteNext(before.value, es[|es| - 1])) else None
  }

  /** What every caller is to be told once the promotion is over. */
  function Verdict(s: Promotion): PromoteResult
    requires s.channel.Some?
  {
    if s.channel.value.value.Some? then s.channel.value.value.value else SENDER_DROPPED
  }

  /** At most one promotion ever starts; whoever called, before or after its end, is told its single result. */
  lemma {:induction false} OnePromotionOneResult(es: seq<PromoteEvent>)
    requires PromoteRun(es).Some?
    ensures var s := PromoteRun(es).value;
            && s.started <= 1 && (s.channel.Some? <==> s.started == 1)
            && (s.channel.Some? ==> (s.running <==> !s.channel.value.closed))
            && (s.channel.Some? ==> (s.channel.value.version == 1 <==> s.channel.value.value.Some?))
            && (s.channel.Some? ==> s.channel.value.version <= 1 && (s.running ==> s.channel.value.version == 0))
            && (s.channel.None? ==> !s.running)
            && (forall c <- s.callers :: s.channel.Some? &&
                  (s.callers[c].Waiting? ==> s.callers[c].seen == 0) &&
                  (s.callers[c].Returned? ==> !s.running && s.callers[c].result == Verdict(s)))
  {
    if es != [] {
      OnePromotionOneResult(es[..|es| - 1]);
    }
  }

  /** That result is the one the promotion sent, or that its sender was dropped. */
  lemma {:induction false} VerdictIsTheResult(es: seq<PromoteEvent>, e: PromoteEvent)
    requires PromoteRun(es).Some? && e in es && (e.TaskSends? || e.TaskDies?)
    ensures var s := PromoteRun(es).value;
            && s.channel.Some? && !s.running
            && Verdict(s) == if e.TaskSends? then e.result else PromoteFailed("promote sender dropped")
  {
    var init, last := es[..|es| - 1], es[|es| - 1];
    assert es == init + [last];
    OnePromotionOneResult(init);
    if e in init {
      VerdictIsTheResult(init, e);
    }
  }

  /** Once the promotion is over nobody is left waiting: every waiting caller can proceed, and with the one result. */
  lemma NobodyWaitsForever(es: seq<PromoteEvent>, caller: nat)
    requires PromoteRun(es).Some?
    requires var s := PromoteRun(es).value; !s.running && caller in s.callers && s.callers[caller].Waiting?
    ensures var s := PromoteRun(es).value;
            && PromoteEnabled(s, CallerWakes(caller))
            && PromoteNext(s, CallerWakes(caller)).callers[caller] == Returned(Verdict(s))
  {
    OnePromotionOneResult(es);
  }
}
