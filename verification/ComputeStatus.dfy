/**
 The status protocol of `compute_ctl`.

 One mutex protects `ComputeState`; one condition variable announces changes of
 it.  The main thread, the configurator thread, the certificate watcher and the
 HTTP handlers take turns under that mutex.  `Shared` is what the mutex protects
 together with the condition variable's wait set; each function on `Shared` is one
 critical section of the source.  `State` adds the program counters and `Next` is
 one scheduling step.
 */
module ComputeStatus {
  import opened Prelude

  datatype Status =
    | Empty
    | ConfigurationPending
    | Init
    | Running
    | Configuration
    | Failed
    | TerminationPendingFast
    | TerminationPendingImmediate
    | Terminated
    | RefreshConfigurationPending
    | RefreshConfiguration

  datatype TerminateMode = Fast | Immediate

  /** A parsed spec; only the part the configurator compares is kept. */
  datatype ParsedSpec = ParsedSpec(pageserverConninfo: string)

  datatype Params = Params(lakebaseMode: bool, tls: bool, remoteExtensions: bool)

  datatype Thread = Main | Configurator | CertWatcher

  /** `asleep` holds the threads waiting on the condition variable that nobody has notified yet. */
  datatype Shared = Shared(status: Status, pspec: Option<ParsedSpec>, asleep: set<Thread>)

  predicate TerminationPending(s: Status) {
    s == TerminationPendingFast || s == TerminationPendingImmediate
  }

  // ----- critical sections ---------------------------------------------------

  /** Every write of the status is followed by `notify_all`. */
  function Announce(sh: Shared, status: Status): Shared {
    sh.(status := status, asleep := {})
  }

  function Sleep(sh: Shared, t: Thread): Shared {
    sh.(asleep := sh.asleep + {t})
  }

  /** `POST /configure`: accepted only in `Empty` and `Running`. */
  function ConfigureSection(sh: Shared, spec: ParsedSpec): Shared {
    if sh.status == Empty || sh.status == Running then
      Announce(sh.(pspec := Some(spec)), ConfigurationPending)
    else sh
  }

  /** `POST /terminate`: in lakebase mode an empty compute just exits later. */
  function TerminateSection(p: Params, sh: Shared, mode: TerminateMode): Shared {
    if sh.status != Empty && sh.status != Running then sh
    else if p.lakebaseMode && sh.status == Empty then sh
    else Announce(sh, if mode == Fast then TerminationPendingFast else TerminationPendingImmediate)
  }

  /** `signal_refresh_configuration` */
  function RefreshSection(sh: Shared): Shared {
    if sh.status == Running || sh.status == Failed || sh.status == RefreshConfigurationPending then
      Announce(sh, RefreshConfigurationPending)
    else sh
  }

  /** The last section of `cleanup_after_postgres_exit`. */
  function CleanupSection(sh: Shared): Shared {
    if TerminationPending(sh.status) then Announce(sh, Terminated) else sh
  }

  datatype MainPc =
    | CheckingSpec        // about to test the guard in `wait_spec`
    | SleepingForSpec     // waiting on the condition variable in `wait_spec`
    | SpecReady           // has a spec, about to enter `start_compute`
    | PreLaunch           // status set to Init, configurator not launched
    | Starting            // configurator launched, Postgres being started and configured
    | WaitingForPostgres
    | CleaningUp
    | Exiting

  datatype ConfPc = NotLaunched | LoopTop | Sleeping | Configuring | Fetching | Reconfiguring | Stopped

  datatype CertPc = CertNotLaunched | CertLocking | CertSleeping | WaitingForCert | CertStopped

  function WaitSpecSection(sh: Shared): (Shared, MainPc) {
    if sh.status == ConfigurationPending then (sh, SpecReady) else (Sleep(sh, Main), SleepingForSpec)
  }

  /** Whether the configurator, holding the lock, goes (back) to sleep. */
  predicate ConfiguratorSleeps(p: Params, status: Status, woken: bool) {
    if p.lakebaseMode then
      status != ConfigurationPending && status != RefreshConfigurationPending && status != Failed
    else
      !woken && status != ConfigurationPending
  }

  /** One locked stretch of `configurator_main_loop`, from the lock (or a wake-up) to the next unlock. */
  function ConfiguratorSection(p: Params, sh: Shared, woken: bool): (Shared, ConfPc) {
    if ConfiguratorSleeps(p, sh.status, woken) then (Sleep(sh, Configurator), Sleeping)
    else match sh.status
      case ConfigurationPending => (Announce(sh, Configuration), Configuring)
      case RefreshConfigurationPending => (Announce(sh, RefreshConfiguration), Fetching)
      case Failed => (sh, Stopped)
      case _ => (sh, LoopTop)
  }

  /** The certificate watcher's `'status_update` loop. */
  function CertSection(sh: Shared): (Shared, CertPc) {
    match sh.status
    case ConfigurationPending => (Announce(sh, ConfigurationPending), WaitingForCert)
    case Running => (Announce(sh, ConfigurationPending), WaitingForCert)
    case Failed => (sh, CertStopped)
    case TerminationPendingFast => (sh, CertStopped)
    case TerminationPendingImmediate => (sh, CertStopped)
    case Terminated => (sh, CertStopped)
    case _ => (Sleep(sh, CertWatcher), CertSleeping)
  }

  datatype FetchResult = FetchedSpec(spec: ParsedSpec) | NoSpec | FetchError

  /** What the configurator does with the answer of the control plane; `NoSpec` exits the process. */
  function FetchedSection(sh: Shared, spec: ParsedSpec): (Shared, ConfPc) {
    if sh.pspec.Some? && sh.pspec.value.pageserverConninfo == spec.pageserverConninfo then
      (Announce(sh, Running), LoopTop)
    else
      (sh.(pspec := Some(spec)), Reconfiguring)
  }

  /** A promotion replaces the spec of the running replica; it neither looks at the status nor announces anything. */
  function PromoteSection(sh: Shared, spec: ParsedSpec): Shared {
    sh.(pspec := Some(spec))
  }

  // ----- the transition system -----------------------------------------------

  datatype PromotePc =
    | NotPromoted
    | Checked       // the spec is a replica's; Postgres is being promoted
    | Promoting     // the new spec is being applied
    | Promoted      // or given up

  /** Requests that look into the spec, under the lock, whatever the status. */
  datatype SpecReader = PrewarmLfc | OffloadLfc | DownloadExtension

  /** `panicked` also means that the mutex is poisoned: whoever locks it next panics as well. */
  datatype State = State(
    sh: Shared,
    main: MainPc,
    conf: ConfPc,
    cert: CertPc,
    promo: PromotePc,
    panicked: bool,
    exited: bool)

  datatype Event =
    | MainChecksSpec
    | MainWakes
    | MainStartsCompute
    | MainLaunchesCertWatcher
    | MainLaunchesConfigurator
    | MainFinishesStart(ok: bool)
    | PostgresExits
    | MainCleansUp(synced: bool)
    | ConfiguratorLocks
    | ConfiguratorWakes
    | ConfiguratorApplied(ok: bool)
    | ConfiguratorFetched(result: FetchResult)
    | ConfiguratorReapplied(ok: bool)
    | CertLocks
    | CertWakes
    | CertChanged(ok: bool)
    | HttpConfigure(spec: ParsedSpec)
    | HttpTerminate(mode: TerminateMode)
    | HttpRefresh
    | HttpReadsSpec(reader: SpecReader)
    | PromoteChecks(ok: bool)             // the first promotion request looks at the mode of the spec
    | PromoteSetsSpec(spec: ParsedSpec)   // Postgres has been promoted; the new spec is about to be applied
    | PromoteEnds
    | SpuriousWakeup(t: Thread)
    | ProcessExits

  function Actor(e: Event): Option<Thread> {
    match e
    case MainChecksSpec | MainWakes | MainStartsCompute | MainLaunchesCertWatcher | MainLaunchesConfigurator
       | MainFinishesStart(_) | PostgresExits | MainCleansUp(_) => Some(Main)
    case ConfiguratorLocks | ConfiguratorWakes | ConfiguratorApplied(_) | ConfiguratorFetched(_)
       | ConfiguratorReapplied(_) => Some(Configurator)
    case CertLocks | CertWakes | CertChanged(_) => Some(CertWatcher)
    case _ => None
  }

  /** With a spec on the command line the main thread skips `wait_spec`. */
  function Start(cliSpec: Option<ParsedSpec>): State {
    State(Shared(Empty, cliSpec, {}), if cliSpec.Some? then SpecReady else CheckingSpec,
          NotLaunched, CertNotLaunched, NotPromoted, false, false)
  }

  predicate Enabled(p: Params, s: State, e: Event) {
    !s.exited && !s.panicked &&
    match e
    case MainChecksSpec => s.main == CheckingSpec
    case MainWakes => s.main == SleepingForSpec && Main !in s.sh.asleep
    case MainStartsCompute => s.main == SpecReady
    case MainLaunchesCertWatcher => s.main == PreLaunch && p.tls && s.cert == CertNotLaunched
    case MainLaunchesConfigurator => s.main == PreLaunch
    case MainFinishesStart(ok) => s.main == Starting || (s.main == PreLaunch && !ok)
    case PostgresExits => s.main == WaitingForPostgres
    case MainCleansUp(_) => s.main == CleaningUp
    case ConfiguratorLocks => s.conf == LoopTop
    case ConfiguratorWakes => s.conf == Sleeping && Configurator !in s.sh.asleep
    case ConfiguratorApplied(_) => s.conf == Configuring
    case ConfiguratorFetched(_) => s.conf == Fetching
    case ConfiguratorReapplied(_) => s.conf == Reconfiguring
    case CertLocks => s.cert == CertLocking
    case CertWakes => s.cert == CertSleeping && CertWatcher !in s.sh.asleep
    case CertChanged(_) => s.cert == WaitingForCert
    case HttpReadsSpec(reader) => reader == DownloadExtension ==> p.remoteExtensions
    case PromoteChecks(_) => s.promo == NotPromoted
    case PromoteSetsSpec(_) => s.promo == Checked && (s.main == Starting || s.main == WaitingForPostgres)
    case PromoteEnds => s.promo == Checked || s.promo == Promoting
    case _ => true
  }

  function Next(p: Params, s: State, e: Event): State
    requires Enabled(p, s, e)
  {
    match e
    case MainChecksSpec =>
      var (sh, pc) := WaitSpecSection(s.sh);
      // the spec is unwrapped once the guard fails
      s.(sh := sh, main := pc, panicked := pc == SpecReady && sh.pspec.None?)
    case MainWakes => s.(main := CheckingSpec)
    case MainStartsCompute => s.(sh := Announce(s.sh, Init), main := PreLaunch, panicked := s.sh.pspec.None?)
    case MainLaunchesCertWatcher => s.(cert := CertLocking)
    case MainLaunchesConfigurator => s.(conf := LoopTop, main := Starting)
    case MainFinishesStart(ok) =>
      s.(sh := Announce(s.sh, if ok then Running else Failed), main := WaitingForPostgres)
    case PostgresExits => s.(main := CleaningUp, panicked := s.sh.pspec.None?)
    case MainCleansUp(synced) =>
      // a failed safekeeper sync leaves `run` before the status is touched
      s.(sh := if synced then CleanupSection(s.sh) else s.sh, main := Exiting)
    case ConfiguratorLocks =>
      var (sh, pc) := ConfiguratorSection(p, s.sh, false);
      // the assertion at the top of the loop
      s.(sh := sh, conf := pc, panicked := s.sh.status == RefreshConfiguration)
    case ConfiguratorWakes =>
      var (sh, pc) := ConfiguratorSection(p, s.sh, true);
      s.(sh := sh, conf := pc)
    case ConfiguratorApplied(ok) =>
      // `reconfigure` starts by unwrapping `pspec`
      s.(sh := Announce(s.sh, if ok then Running else Failed), conf := LoopTop, panicked := s.sh.pspec.None?)
    case ConfiguratorFetched(FetchedSpec(spec)) =>
      var (sh, pc) := FetchedSection(s.sh, spec);
      // the assertion after the fetch
      s.(sh := sh, conf := pc, panicked := s.sh.status != RefreshConfiguration)
    case ConfiguratorFetched(NoSpec) => s.(exited := true)
    case ConfiguratorFetched(FetchError) => s.(sh := Announce(s.sh, RefreshConfigurationPending), conf := LoopTop)
    case ConfiguratorReapplied(ok) =>
      s.(sh := Announce(s.sh, if ok then Running else RefreshConfigurationPending), conf := LoopTop,
         panicked := s.sh.pspec.None?)
    case CertLocks =>
      var (sh, pc) := CertSection(s.sh);
      s.(sh := sh, cert := pc)
    case CertWakes =>
      var (sh, pc) := CertSection(s.sh);
      s.(sh := sh, cert := pc)
    case CertChanged(ok) => s.(cert := if ok then CertLocking else CertStopped)
    case HttpConfigure(spec) => s.(sh := ConfigureSection(s.sh, spec))
    case HttpTerminate(mode) => s.(sh := TerminateSection(p, s.sh, mode))
    case HttpRefresh => s.(sh := RefreshSection(s.sh))
    case HttpReadsSpec(_) => s.(panicked := s.sh.pspec.None?)
    case PromoteChecks(ok) => s.(promo := if ok then Checked else Promoted, panicked := s.sh.pspec.None?)
    case PromoteSetsSpec(spec) => s.(sh := PromoteSection(s.sh, spec), promo := Promoting)
    case PromoteEnds => s.(promo := Promoted)
    case SpuriousWakeup(t) => s.(sh := s.sh.(asleep := s.sh.asleep - {t}))
    case ProcessExits => s.(exited := true)
  }

  /** The state after a schedule, or `None` when some event was not enabled when its turn came. */
  function Run(p: Params, s: State, es: seq<Event>): Option<State> {
    if es == [] then Some(s)
    else
      var before := Run(p, s, es[..|es| - 1]);
      if before.Some? && Enabled(p, before.value, es[|es| - 1])
      then Some(Next(p, before.value, es[|es| - 1]))
      else None
  }

  ghost predicate Reachable(p: Params, s: State) {
    exists cliSpec, es :: Run(p, Start(cliSpec), es) == Some(s)
  }

  lemma StartIsReachable(p: Params, cliSpec: Option<ParsedSpec>)
    ensures Reachable(p, Start(cliSpec))
  {
    assert Run(p, Start(cliSpec), []) == Some(Start(cliSpec));
  }

  lemma NextIsReachable(p: Params, s: State, e: Event)
    requires Reachable(p, s) && Enabled(p, s, e)
    ensures Reachable(p, Next(p, s, e))
  {
    var cliSpec, es :| Run(p, Start(cliSpec), es) == Some(s);
    assert (es + [e])[..|es|] == es;
    assert Run(p, Start(cliSpec), es + [e]) == Some(Next(p, s, e));
  }

  // ----- the invariant ---------------------------------------------------------

  predicate Started(s: State) {
    s.main != CheckingSpec && s.main != SleepingForSpec && s.main != SpecReady
  }

  /** Program counters and status agree: this is the ownership argument the source only asserts. */
  predicate Ownership(s: State) {
    && (s.sh.status == Init <==> s.main == PreLaunch || s.main == Starting)
    && (s.sh.status == Configuration <==> s.conf == Configuring)
    && (s.sh.status == RefreshConfiguration <==> s.conf == Fetching || s.conf == Reconfiguring)
    && (s.conf != NotLaunched ==> Started(s) && s.main != PreLaunch)
    && (s.cert != CertNotLaunched ==> Started(s))
    && (!Started(s) ==> s.sh.status in {Empty, ConfigurationPending} || TerminationPending(s.sh.status))
    && (Started(s) ==> s.sh.status != Empty)
    && (s.sh.status == Terminated ==> s.main == Exiting)
    && (s.conf == Stopped ==> s.sh.status == Failed || s.sh.status == RefreshConfigurationPending)
    && (s.main == Starting ==> s.conf == LoopTop || s.conf == Sleeping)
    && (s.promo == Promoting ==> Started(s) && s.main != PreLaunch)
    && (Started(s) && s.sh.status in {Running, ConfigurationPending} ==> s.conf == LoopTop || s.conf == Sleeping)
  }

  /** Neither on the command line nor over HTTP has a spec arrived. */
  predicate AwaitsSpec(s: State) {
    (s.main == CheckingSpec || s.main == SleepingForSpec) && s.sh.status != ConfigurationPending
  }

  predicate SpecPresent(s: State) {
    (s.sh.pspec.None? <==> AwaitsSpec(s)) && (s.panicked ==> AwaitsSpec(s))
  }

  /** Nobody sleeps un-notified through a status it is waiting for. */
  predicate WaitSetFaithful(p: Params, s: State) {
    && (Main in s.sh.asleep ==> s.main == SleepingForSpec && s.sh.status != ConfigurationPending)
    && (Configurator in s.sh.asleep ==>
          && s.conf == Sleeping
          && s.sh.status != ConfigurationPending
          && (p.lakebaseMode ==> s.sh.status != RefreshConfigurationPending && s.sh.status != Failed))
    && (CertWatcher in s.sh.asleep ==>
          && s.cert == CertSleeping
          && s.sh.status in {Empty, Init, Configuration, RefreshConfiguration, RefreshConfigurationPending})
  }

  predicate Inv(p: Params, s: State) {
    Ownership(s) && SpecPresent(s) && WaitSetFaithful(p, s)
  }

  lemma MainKeepsOwnership(p: Params, s: State, e: Event)
    requires Inv(p, s) && Enabled(p, s, e) && Actor(e) == Some(Main)
    ensures Ownership(Next(p, s, e))
  {
  }

  lemma ConfiguratorKeepsOwnership(p: Params, s: State, e: Event)
    requires Inv(p, s) && Enabled(p, s, e) && Actor(e) == Some(Configurator)
    ensures Ownership(Next(p, s, e))
  {
  }

  lemma OthersKeepOwnership(p: Params, s: State, e: Event)
    requires Inv(p, s) && Enabled(p, s, e) && Actor(e) != Some(Main) && Actor(e) != Some(Configurator)
    ensures Ownership(Next(p, s, e))
  {
  }

  lemma NextKeepsOwnership(p: Params, s: State, e: Event)
    requires Inv(p, s) && Enabled(p, s, e)
    ensures Ownership(Next(p, s, e))
  {
    if Actor(e) == Some(Main) {
      MainKeepsOwnership(p, s, e);
    } else if Actor(e) == Some(Configurator) {
      ConfiguratorKeepsOwnership(p, s, e);
    } else {
      OthersKeepOwnership(p, s, e);
    }
  }

  lemma NextKeepsSpec(p: Params, s: State, e: Event)
    requires Inv(p, s) && Enabled(p, s, e)
    ensures SpecPresent(Next(p, s, e))
  {
  }

  lemma NextKeepsWaitSet(p: Params, s: State, e: Event)
    requires Inv(p, s) && Enabled(p, s, e)
    ensures WaitSetFaithful(p, Next(p, s, e))
  {
  }

  lemma NextKeepsInv(p: Params, s: State, e: Event)
    requires Inv(p, s) && Enabled(p, s, e)
    ensures Inv(p, Next(p, s, e))
  {
    NextKeepsOwnership(p, s, e);
    NextKeepsSpec(p, s, e);
    NextKeepsWaitSet(p, s, e);
  }

  lemma {:induction false} RunKeepsInv(p: Params, s: State, es: seq<Event>)
    requires Inv(p, s)
    ensures var r := Run(p, s, es); r.Some? ==> Inv(p, r.value)
  {
    if es != [] && Run(p, s, es).Some? {
      RunKeepsInv(p, s, es[..|es| - 1]);
      NextKeepsInv(p, Run(p, s, es[..|es| - 1]).value, es[|es| - 1]);
    }
  }

  lemma ReachableInv(p: Params, s: State)
    requires Reachable(p, s)
    ensures Inv(p, s)
  {
    var cliSpec, es :| Run(p, Start(cliSpec), es) == Some(s);
    RunKeepsInv(p, Start(cliSpec), es);
  }

  // ----- safety ------------------------------------------------------------------

  /** Both run-time assertions of the configurator, and every unwrapping of `pspec` by a thread, succeed in every schedule. */
  lemma AssertionsNeverFail(p: Params, s: State, e: Event)
    requires Reachable(p, s) && Enabled(p, s, e)
    ensures e == ConfiguratorLocks ==> s.sh.status != RefreshConfiguration
    ensures e.ConfiguratorFetched? ==> s.sh.status == RefreshConfiguration
    ensures Actor(e).Some? ==> !Next(p, s, e).panicked
  {
    ReachableInv(p, s);
  }

  /** A step panics, and poisons the mutex, exactly when a request looks into the spec before one has arrived. */
  lemma PanicsExactlyWhen(p: Params, s: State, e: Event)
    requires Reachable(p, s) && Enabled(p, s, e)
    ensures Next(p, s, e).panicked <==> (e.HttpReadsSpec? || e.PromoteChecks?) && AwaitsSpec(s)
  {
    ReachableInv(p, s);
  }

  /** Such a request is possible from the start, and nothing happens under the lock afterwards. */
  lemma PanicIsReached(p: Params, e: Event)
    requires e.PromoteChecks? || (e.HttpReadsSpec? && (e.reader == DownloadExtension ==> p.remoteExtensions))
    ensures Enabled(p, Start(None), e) && Reachable(p, Next(p, Start(None), e)) && Next(p, Start(None), e).panicked
    ensures forall e1 :: !Enabled(p, Next(p, Start(None), e), e1)
  {
    StartIsReachable(p, None);
    NextIsReachable(p, Start(None), e);
  }

  /** The ownership argument behind the second assertion: no other thread moves the status out of these two. */
  lemma OnlyConfiguratorLeavesConfiguration(p: Params, s: State, e: Event)
    requires Reachable(p, s) && Enabled(p, s, e)
    requires s.sh.status == Configuration || s.sh.status == RefreshConfiguration
    requires Next(p, s, e).sh.status != s.sh.status
    ensures Actor(e) == Some(Configurator)
  {
    ReachableInv(p, s);
  }

  predicate MainApplies(s: State) {
    s.main == Starting
  }

  predicate ConfiguratorApplies(s: State) {
    s.conf == Configuring || s.conf == Reconfiguring
  }

  predicate PromotionApplies(s: State) {
    s.promo == Promoting
  }

  /** At most one of the two threads is applying a spec to Postgres. */
  lemma OneSpecApplicationAtATime(p: Params, s: State)
    requires Reachable(p, s)
    ensures !(MainApplies(s) && ConfiguratorApplies(s))
  {
    ReachableInv(p, s);
  }

  /** Two specs are being applied at once. */
  predicate Overlap(s: State) {
    || (MainApplies(s) && ConfiguratorApplies(s))
    || (MainApplies(s) && PromotionApplies(s))
    || (ConfiguratorApplies(s) && PromotionApplies(s))
  }

  /** With promotions they are, exactly while one runs in a compute that is starting or being configured. */
  lemma OverlapExactlyWhen(p: Params, s: State)
    requires Reachable(p, s)
    ensures Overlap(s) <==> PromotionApplies(s) && (s.sh.status in {Init, Configuration} || s.conf == Reconfiguring)
  {
    ReachableInv(p, s);
  }

  /** A compute started from the command line, its configurator not asleep yet. */
  lemma RunningIsReachable(p: Params, spec: ParsedSpec) returns (s: State)
    ensures Reachable(p, s) && Enabled(p, s, ConfiguratorLocks) && s.sh.status == Running && s.sh.pspec == Some(spec)
    ensures s.main == WaitingForPostgres && s.promo == NotPromoted
  {
    var s0 := Start(Some(spec));
    var s1 := Next(p, s0, MainStartsCompute);
    var s2 := Next(p, s1, MainLaunchesConfigurator);
    StartIsReachable(p, Some(spec));
    NextIsReachable(p, s0, MainStartsCompute);
    NextIsReachable(p, s1, MainLaunchesConfigurator);
    NextIsReachable(p, s2, MainFinishesStart(true));
    s := Next(p, s2, MainFinishesStart(true));
  }

  /** That happens: nothing keeps a promotion from a compute that is being configured. */
  lemma OverlapIsReached(p: Params, spec: ParsedSpec)
    ensures exists s :: Reachable(p, s) && ConfiguratorApplies(s) && PromotionApplies(s)
  {
    var s := RunningIsReachable(p, spec);
    var s1 := Next(p, s, HttpConfigure(spec));
    NextIsReachable(p, s, HttpConfigure(spec));
    var s2 := Next(p, s1, ConfiguratorLocks);
    NextIsReachable(p, s1, ConfiguratorLocks);
    var s3 := Next(p, s2, PromoteChecks(true));
    NextIsReachable(p, s2, PromoteChecks(true));
    NextIsReachable(p, s3, PromoteSetsSpec(spec));
  }

  /** Requests that make the configurator apply a spec. */
  predicate AsksForConfiguration(e: Event) {
    e.HttpConfigure? || e.HttpRefresh? || e.CertLocks? || e.CertWakes?
  }

  predicate QuietPromotion(s: State) {
    && (s.promo == Promoting || s.promo == Promoted) && (s.conf == LoopTop || s.conf == Sleeping)
    && (s.sh.status in {Running, Terminated} || TerminationPending(s.sh.status))
  }

  /** A promotion of a running compute stays alone as long as nobody asks for a configuration. */
  lemma {:induction false} PromotionAloneUnlessAsked(p: Params, s: State, es: seq<Event>)
    requires Reachable(p, s) && PromotionApplies(s) && s.sh.status == Running && forall e <- es :: !AsksForConfiguration(e)
    ensures var r := Run(p, s, es); r.Some? ==> QuietPromotion(r.value) && !Overlap(r.value)
  {
    ReachableInv(p, s);
    if es != [] && Run(p, s, es).Some? {
      var init, e := es[..|es| - 1], es[|es| - 1];
      assert e in es && forall x <- init :: x in es;
      PromotionAloneUnlessAsked(p, s, init);
      RunKeepsInv(p, s, init);
      QuietStep(p, Run(p, s, init).value, e);
    }
  }

  lemma QuietStep(p: Params, s: State, e: Event)
    requires Inv(p, s) && Enabled(p, s, e) && QuietPromotion(s) && !AsksForConfiguration(e)
    ensures QuietPromotion(Next(p, s, e)) && !Overlap(Next(p, s, e))
  {
  }

  /** The arrows of the state diagram in compute_tools/README.md. */
  predicate Documented(a: Status, b: Status) {
    match a
    case Empty => b in {ConfigurationPending, Init, TerminationPendingFast, TerminationPendingImmediate}
    case ConfigurationPending => b == Configuration
    case Configuration => b in {Failed, Running}
    case Init => b in {Failed, Running}
    case Running => b in {TerminationPendingFast, TerminationPendingImmediate, ConfigurationPending, RefreshConfigurationPending}
    case RefreshConfigurationPending => b == RefreshConfiguration
    case RefreshConfiguration => b in {Running, RefreshConfigurationPending}
    case TerminationPendingFast => b == Terminated
    case TerminationPendingImmediate => b == Terminated
    case Failed => b == RefreshConfigurationPending
    case Terminated => false
  }

  /** An arrow of the diagram, or the main thread entering `Init` from a pending status. */
  predicate Follows(e: Event, a: Status, b: Status) {
    Documented(a, b) || (e == MainStartsCompute && (a == ConfigurationPending || TerminationPending(a)))
  }

  lemma MainFollowsDiagram(p: Params, s: State, e: Event)
    requires Inv(p, s) && Enabled(p, s, e) && Actor(e) == Some(Main) && Next(p, s, e).sh.status != s.sh.status
    ensures Follows(e, s.sh.status, Next(p, s, e).sh.status)
  {
  }

  lemma OthersFollowDiagram(p: Params, s: State, e: Event)
    requires Inv(p, s) && Enabled(p, s, e) && Actor(e) != Some(Main) && Next(p, s, e).sh.status != s.sh.status
    ensures Documented(s.sh.status, Next(p, s, e).sh.status)
  {
  }

  /** The diagram is complete but for one kind of arrow: the main thread enters `Init` whatever came before. */
  lemma DiagramHolds(p: Params, s: State, e: Event)
    requires Reachable(p, s) && Enabled(p, s, e)
    requires Next(p, s, e).sh.status != s.sh.status
    ensures || Documented(s.sh.status, Next(p, s, e).sh.status)
            || (&& e == MainStartsCompute
                && (s.sh.status == ConfigurationPending || TerminationPending(s.sh.status)))
  {
    ReachableInv(p, s);
    if Actor(e) == Some(Main) {
      MainFollowsDiagram(p, s, e);
    } else {
      OthersFollowDiagram(p, s, e);
    }
  }

  /** The three undocumented arrows are taken: a spec that arrives over HTTP, and a termination that is overwritten. */
  lemma UndocumentedArrowsAreTaken(p: Params, spec: ParsedSpec, mode: TerminateMode)
    ensures exists s :: Reachable(p, s) && s.sh.status == ConfigurationPending && Enabled(p, s, MainStartsCompute)
    ensures !p.lakebaseMode ==>
              exists s :: && Reachable(p, s) && Enabled(p, s, MainStartsCompute)
                          && s.sh.status == (if mode == Fast then TerminationPendingFast else TerminationPendingImmediate)
  {
    StartIsReachable(p, None);
    NextIsReachable(p, Start(None), HttpConfigure(spec));
    NextIsReachable(p, Next(p, Start(None), HttpConfigure(spec)), MainChecksSpec);
    if !p.lakebaseMode {
      StartIsReachable(p, Some(spec));
      NextIsReachable(p, Start(Some(spec)), HttpTerminate(mode));
    }
  }

  // ----- wake-ups -------------------------------------------------------------------

  /** While the configurator sleeps un-notified there is nothing for it to do. */
  lemma NoLostWakeup(p: Params, s: State)
    requires Reachable(p, s)
    ensures Configurator in s.sh.asleep ==> s.sh.status != ConfigurationPending
    ensures Configurator in s.sh.asleep && p.lakebaseMode ==>
              s.sh.status != RefreshConfigurationPending && s.sh.status != Failed
    ensures Main in s.sh.asleep ==> s.sh.status != ConfigurationPending
    ensures CertWatcher in s.sh.asleep ==> s.sh.status != Running && s.sh.status != ConfigurationPending
  {
    ReachableInv(p, s);
  }

  /** The step the configurator takes next, when it is not busy. */
  function ConfiguratorTurn(s: State): Event {
    if s.conf == LoopTop then ConfiguratorLocks else ConfiguratorWakes
  }

  /** Every accepted `/configure` of a running compute is picked up by the configurator's next step. */
  lemma ConfigurationIsDelivered(p: Params, s: State, spec: ParsedSpec)
    requires Reachable(p, s) && Enabled(p, s, HttpConfigure(spec)) && s.sh.status == Running
    ensures var s1 := Next(p, s, HttpConfigure(spec));
            && Enabled(p, s1, ConfiguratorTurn(s1))
            && Next(p, s1, ConfiguratorTurn(s1)).conf == Configuring
            && Next(p, s1, ConfiguratorTurn(s1)).sh.pspec == Some(spec)
  {
    ReachableInv(p, s);
  }

  /**
   An accepted refresh signal is acted on by the configurator's next step exactly when it
   was waiting, or is about to look in lakebase mode; a stopped one never acts.
   */
  lemma RefreshIsDeliveredExactlyWhen(p: Params, s: State)
    requires Reachable(p, s) && Enabled(p, s, HttpRefresh)
    requires s.sh.status in {Running, Failed, RefreshConfigurationPending}
    ensures var s1 := Next(p, s, HttpRefresh);
            (Enabled(p, s1, ConfiguratorTurn(s1)) && Next(p, s1, ConfiguratorTurn(s1)).conf == Fetching) <==>
            s.conf == Sleeping || (s.conf == LoopTop && p.lakebaseMode)
  {
    ReachableInv(p, s);
  }

  /** Outside lakebase mode the configurator can sleep through a refresh request. */
  lemma RefreshLostOutsideLakebase(p: Params, spec: ParsedSpec)
    requires !p.lakebaseMode
    ensures exists s :: Reachable(p, s) && Configurator in s.sh.asleep && s.sh.status == RefreshConfigurationPending
  {
    var s := RunningIsReachable(p, spec);
    NextIsReachable(p, s, HttpRefresh);
    NextIsReachable(p, Next(p, s, HttpRefresh), ConfiguratorLocks);
  }

  // ----- what becomes of a spec ---------------------------------------------------

  /** Steps of the others that leave the spec in place. */
  predicate Bystander(e: Event, t: Thread) {
    Actor(e) != Some(t) && !e.PromoteSetsSpec?
  }

  predicate AllBystanders(es: seq<Event>, t: Thread) {
    forall e <- es :: Bystander(e, t)
  }

  /** A thread is at work on the spec: the status is its, and nobody else moves either. */
  predicate AtWork(s: State, t: Thread, status: Status, spec: ParsedSpec) {
    && s.sh.status == status && s.sh.pspec == Some(spec)
    && match t
       case Main => s.main == Starting && status == Init
       case Configurator =>
         (s.conf == Configuring && status == Configuration) || (s.conf == Reconfiguring && status == RefreshConfiguration)
       case CertWatcher => false
  }

  lemma BystandersWait(p: Params, s: State, e: Event, t: Thread, status: Status, spec: ParsedSpec)
    requires Inv(p, s) && Enabled(p, s, e) && AtWork(s, t, status, spec) && Bystander(e, t)
    ensures AtWork(Next(p, s, e), t, status, spec)
  {
  }

  lemma {:induction false} WorkIsUndisturbed(p: Params, s: State, es: seq<Event>, t: Thread, status: Status, spec: ParsedSpec)
    requires Inv(p, s) && AtWork(s, t, status, spec) && AllBystanders(es, t)
    ensures var r := Run(p, s, es); r.Some? ==> AtWork(r.value, t, status, spec)
  {
    if es != [] && Run(p, s, es).Some? {
      var init, e := es[..|es| - 1], es[|es| - 1];
      assert e in es && forall x <- init :: x in es;
      WorkIsUndisturbed(p, s, init, t, status, spec);
      RunKeepsInv(p, s, init);
      BystandersWait(p, Run(p, s, init).value, e, t, status, spec);
    }
  }

  /**
   An accepted `/configure`, once picked up, ends in `Running` exactly when the spec could be
   applied, and in `Failed` otherwise; whatever else happens meanwhile, short of a promotion, the
   spec is the one that was asked for.
   */
  lemma ConfigurationEnds(p: Params, s: State, spec: ParsedSpec, es: seq<Event>, ok: bool)
    requires Reachable(p, s) && Enabled(p, s, HttpConfigure(spec)) && s.sh.status == Running && AllBystanders(es, Configurator)
    ensures var s1 := Next(p, s, HttpConfigure(spec));
            Enabled(p, s1, ConfiguratorTurn(s1)) &&
            var r := Run(p, Next(p, s1, ConfiguratorTurn(s1)), es);
            r.Some? && !r.value.exited && !r.value.panicked ==>
              && Enabled(p, r.value, ConfiguratorApplied(ok))
              && var s2 := Next(p, r.value, ConfiguratorApplied(ok));
              && s2.sh == Shared(if ok then Running else Failed, Some(spec), {}) && s2.conf == LoopTop
  {
    ReachableInv(p, s);
    var s1 := Next(p, s, HttpConfigure(spec));
    NextKeepsInv(p, s, HttpConfigure(spec));
    NextKeepsInv(p, s1, ConfiguratorTurn(s1));
    WorkIsUndisturbed(p, Next(p, s1, ConfiguratorTurn(s1)), es, Configurator, Configuration, spec);
  }

  /** The start of the compute ends likewise, with the spec it started from. */
  lemma StartEnds(p: Params, s: State, spec: ParsedSpec, es: seq<Event>, ok: bool)
    requires Reachable(p, s) && Enabled(p, s, MainLaunchesConfigurator) && s.sh.pspec == Some(spec) && AllBystanders(es, Main)
    ensures var r := Run(p, Next(p, s, MainLaunchesConfigurator), es);
            r.Some? && !r.value.exited && !r.value.panicked ==>
              && Enabled(p, r.value, MainFinishesStart(ok))
              && var s2 := Next(p, r.value, MainFinishesStart(ok));
              && s2.sh == Shared(if ok then Running else Failed, Some(spec), {}) && s2.main == WaitingForPostgres
  {
    ReachableInv(p, s);
    NextKeepsInv(p, s, MainLaunchesConfigurator);
    WorkIsUndisturbed(p, Next(p, s, MainLaunchesConfigurator), es, Main, Init, spec);
  }

  /** A fetched spec is taken exactly when its pageservers differ from the present ones; otherwise the compute runs on. */
  lemma FetchedSpecIsTakenExactlyWhen(p: Params, s: State, spec: ParsedSpec)
    requires Reachable(p, s) && Enabled(p, s, ConfiguratorFetched(FetchedSpec(spec)))
    ensures s.sh.pspec.Some? && s.sh.status == RefreshConfiguration
    ensures var s1 := Next(p, s, ConfiguratorFetched(FetchedSpec(spec)));
            if spec.pageserverConninfo != s.sh.pspec.value.pageserverConninfo
            then s1.conf == Reconfiguring && s1.sh == s.sh.(pspec := Some(spec))
            else s1.conf == LoopTop && s1.sh == Shared(Running, s.sh.pspec, {})
  {
    ReachableInv(p, s);
  }

  /**
   A refresh that brings new pageservers is adopted: whatever else happens meanwhile, short of a
   promotion, the compute then runs with the fetched spec, or asks for another refresh if it
   could not be applied.
   */
  lemma RefreshIsAdopted(p: Params, s: State, spec: ParsedSpec, es: seq<Event>, ok: bool)
    requires Reachable(p, s) && Enabled(p, s, ConfiguratorFetched(FetchedSpec(spec))) && AllBystanders(es, Configurator)
    requires s.sh.pspec.Some? && spec.pageserverConninfo != s.sh.pspec.value.pageserverConninfo
    ensures var r := Run(p, Next(p, s, ConfiguratorFetched(FetchedSpec(spec))), es);
            r.Some? && !r.value.exited && !r.value.panicked ==>
              && Enabled(p, r.value, ConfiguratorReapplied(ok))
              && var s2 := Next(p, r.value, ConfiguratorReapplied(ok));
              && s2.sh == Shared(if ok then Running else RefreshConfigurationPending, Some(spec), {}) && s2.conf == LoopTop
  {
    FetchedSpecIsTakenExactlyWhen(p, s, spec);
    ReachableInv(p, s);
    var e := ConfiguratorFetched(FetchedSpec(spec));
    NextKeepsInv(p, s, e);
    WorkIsUndisturbed(p, Next(p, s, e), es, Configurator, RefreshConfiguration, spec);
  }

  /** A fetch that fails asks for another one, and an answer without a spec ends the process. */
  lemma FailedFetchIsRepeated(p: Params, s: State)
    requires Reachable(p, s) && Enabled(p, s, ConfiguratorFetched(FetchError))
    ensures var s1 := Next(p, s, ConfiguratorFetched(FetchError));
            && s1.sh == Shared(RefreshConfigurationPending, s.sh.pspec, {})
            && Enabled(p, s1, ConfiguratorLocks)
            && (p.lakebaseMode ==> Next(p, s1, ConfiguratorLocks).conf == Fetching)
    ensures Next(p, s, ConfiguratorFetched(NoSpec)).exited
  {
    ReachableInv(p, s);
  }

  /** A renewed certificate asks a running compute for a configuration with its present spec, and gets it. */
  lemma RenewalIsConfigured(p: Params, s: State, e: Event)
    requires Reachable(p, s) && Enabled(p, s, e) && (e == CertLocks || e == CertWakes)
    requires s.sh.status == Running || s.sh.status == ConfigurationPending
    ensures var s1 := Next(p, s, e);
            && s1.sh == Shared(ConfigurationPending, s.sh.pspec, {}) && s1.cert == WaitingForCert
            && Enabled(p, s1, ConfiguratorTurn(s1)) && Next(p, s1, ConfiguratorTurn(s1)).conf == Configuring
  {
    ReachableInv(p, s);
  }

  /** Every renewal makes the watcher look again; once its watch has failed it never does. */
  lemma RenewalIsNoticed(p: Params, s: State, ok: bool, e: Event)
    requires Reachable(p, s) && Enabled(p, s, CertChanged(ok))
    ensures var s1 := Next(p, s, CertChanged(ok));
            && s1.sh == s.sh && (ok <==> Enabled(p, s1, CertLocks))
            && (!ok && Actor(e) == Some(CertWatcher) ==> !Enabled(p, s1, e))
  {
    ReachableInv(p, s);
  }

  /** In any other status the watcher leaves everything as it is, and waits or stops for good. */
  lemma RenewalOtherwise(p: Params, s: State, e: Event)
    requires Reachable(p, s) && Enabled(p, s, e) && (e == CertLocks || e == CertWakes)
    requires s.sh.status != Running && s.sh.status != ConfigurationPending
    ensures var s1 := Next(p, s, e);
            && s1.sh.status == s.sh.status && s1.sh.pspec == s.sh.pspec
            && (s1.cert == CertStopped <==> s.sh.status in {Failed, Terminated} || TerminationPending(s.sh.status))
            && (s1.cert != CertStopped ==> s1.cert == CertSleeping && s1.sh.asleep == s.sh.asleep + {CertWatcher})
  {
    ReachableInv(p, s);
  }

  /** A spec that arrives over HTTP is what the waiting main thread starts the compute with. */
  lemma FirstSpecIsStarted(p: Params, s: State)
    requires Reachable(p, s) && Enabled(p, s, MainChecksSpec) && s.sh.status == ConfigurationPending
    ensures var s1 := Next(p, s, MainChecksSpec);
            && s1.main == SpecReady && s1.sh == s.sh && s1.sh.pspec.Some? && Enabled(p, s1, MainStartsCompute)
            && Next(p, s1, MainStartsCompute).sh == Shared(Init, s.sh.pspec, {})
  {
    ReachableInv(p, s);
  }

  /** What the configurator does when it holds the lock, status by status, fresh or woken. */
  lemma ConfiguratorActs(p: Params, s: State, e: Event)
    requires Reachable(p, s) && Enabled(p, s, e) && (e == ConfiguratorLocks || e == ConfiguratorWakes)
    ensures var s1, looks := Next(p, s, e), p.lakebaseMode || e == ConfiguratorWakes;
            && s1.sh.pspec == s.sh.pspec
            && (s1.conf == Configuring <==> s.sh.status == ConfigurationPending)
            && (s1.conf == Fetching <==> looks && s.sh.status == RefreshConfigurationPending)
            && (s1.conf == Stopped <==> looks && s.sh.status == Failed)
            && (s1.conf == Sleeping ==> s1.sh == Sleep(s.sh, Configurator))
            && (s1.conf == LoopTop <==> looks && !p.lakebaseMode
                                        && s.sh.status !in {ConfigurationPending, RefreshConfigurationPending, Failed})
  {
    ReachableInv(p, s);
  }

  /** A promotion replaces the spec, and nothing else that is shared. */
  lemma PromotionReplacesSpec(p: Params, s: State, spec: ParsedSpec)
    requires Reachable(p, s) && Enabled(p, s, PromoteSetsSpec(spec))
    ensures var s1 := Next(p, s, PromoteSetsSpec(spec));
            s1.sh == s.sh.(pspec := Some(spec)) && PromotionApplies(s1) && s.sh.pspec.Some?
  {
    ReachableInv(p, s);
  }

  // ----- where a run can never go back ------------------------------------------

  /** `P` is kept by every step out of a state that satisfies the invariant. */
  ghost predicate Closed(p: Params, P: State -> bool) {
    forall s, e :: Inv(p, s) && P(s) && Enabled(p, s, e) ==> P(Next(p, s, e))
  }

  lemma {:induction false} RunStays(p: Params, P: State -> bool, s: State, es: seq<Event>)
    requires Closed(p, P) && Inv(p, s) && P(s)
    ensures var r := Run(p, s, es); r.Some? ==> P(r.value)
  {
    if es != [] && Run(p, s, es).Some? {
      RunStays(p, P, s, es[..|es| - 1]);
      RunKeepsInv(p, s, es[..|es| - 1]);
    }
  }

  /** Once a started compute is terminating it only ever becomes `Terminated`, and stays so. */
  lemma TerminationIsSticky(p: Params, s: State, es: seq<Event>)
    requires Reachable(p, s) && Started(s)
    requires TerminationPending(s.sh.status) || s.sh.status == Terminated
    ensures var r := Run(p, s, es);
            r.Some? ==> r.value.sh.status == Terminated || r.value.sh.status == s.sh.status
  {
    ReachableInv(p, s);
    var status := s.sh.status;
    var P := (t: State) => Started(t) && (t.sh.status == Terminated || (TerminationPending(status) && t.sh.status == status));
    forall t, e | Inv(p, t) && P(t) && Enabled(p, t, e) ensures P(Next(p, t, e)) {
    }
    RunStays(p, P, s, es);
  }

  /** Postgres is running or has just exited, under a termination. */
  predicate Terminating(s: State, pending: Status) {
    TerminationPending(pending) && s.sh.status == pending && (s.main == WaitingForPostgres || s.main == CleaningUp)
  }

  lemma TerminatingStep(p: Params, s: State, e: Event, pending: Status)
    requires Inv(p, s) && Enabled(p, s, e) && Terminating(s, pending) && !e.MainCleansUp?
    ensures Terminating(Next(p, s, e), pending)
  {
  }

  lemma {:induction false} TerminationWaits(p: Params, s: State, es: seq<Event>, pending: Status)
    requires Inv(p, s) && Terminating(s, pending) && forall e <- es :: !e.MainCleansUp?
    ensures var r := Run(p, s, es); r.Some? ==> Terminating(r.value, pending)
  {
    if es != [] && Run(p, s, es).Some? {
      var init, e := es[..|es| - 1], es[|es| - 1];
      assert e in es && forall x <- init :: x in es;
      TerminationWaits(p, s, init, pending);
      RunKeepsInv(p, s, init);
      TerminatingStep(p, Run(p, s, init).value, e, pending);
    }
  }

  /**
   A termination of a running compute stays pending, whatever happens, until Postgres has exited and
   been cleaned up after; it is then completed, unless the safekeepers could not be synced.
   */
  lemma TerminationCompletes(p: Params, s: State, mode: TerminateMode, es: seq<Event>, synced: bool)
    requires Reachable(p, s) && Enabled(p, s, HttpTerminate(mode)) && s.sh.status == Running && s.main == WaitingForPostgres
    requires forall e <- es :: !e.MainCleansUp?
    ensures var pending := if mode == Fast then TerminationPendingFast else TerminationPendingImmediate;
            var r := Run(p, Next(p, s, HttpTerminate(mode)), es);
            r.Some? && !r.value.exited && !r.value.panicked ==>
              && r.value.sh.status == pending
              && (r.value.main == WaitingForPostgres ==> Enabled(p, r.value, PostgresExits))
              && (r.value.main != WaitingForPostgres ==>
                    && Enabled(p, r.value, MainCleansUp(synced))
                    && var s2 := Next(p, r.value, MainCleansUp(synced));
                    && s2.sh.status == (if synced then Terminated else pending) && s2.main == Exiting)
  {
    ReachableInv(p, s);
    NextKeepsInv(p, s, HttpTerminate(mode));
    var s1 := Next(p, s, HttpTerminate(mode));
    TerminationWaits(p, s1, es, s1.sh.status);
  }

  /** A termination accepted while the main thread still waits for a spec is never completed. */
  lemma TerminationBeforeSpecNeverCompletes(p: Params, s: State, es: seq<Event>)
    requires Reachable(p, s)
    requires (s.main == CheckingSpec || s.main == SleepingForSpec) && TerminationPending(s.sh.status)
    ensures var r := Run(p, s, es); r.Some? ==> r.value.sh.status == s.sh.status && !Started(r.value)
  {
    ReachableInv(p, s);
    var status := s.sh.status;
    var P := (t: State) => (t.main == CheckingSpec || t.main == SleepingForSpec) && TerminationPending(status)
                           && t.sh.status == status;
    forall t, e | Inv(p, t) && P(t) && Enabled(p, t, e) ensures P(Next(p, t, e)) {
    }
    RunStays(p, P, s, es);
  }

  /** In no continuation of the run does the status leave `from`, but for `Terminated`. */
  ghost predicate NeverResumes(p: Params, s: State, from: Status) {
    forall es :: var r := Run(p, s, es); r.Some? ==> r.value.sh.status in {from, Terminated}
  }

  /** An accepted termination is final exactly when the main thread does not already hold a spec it has yet to start. */
  lemma TerminationIsFinalExactlyWhen(p: Params, s: State)
    requires Reachable(p, s) && TerminationPending(s.sh.status) && !s.exited
    ensures NeverResumes(p, s, s.sh.status) <==> s.main != SpecReady
  {
    ReachableInv(p, s);
    if s.main == SpecReady {
      assert Enabled(p, s, MainStartsCompute);
      assert [MainStartsCompute][..0] == [];
      assert Run(p, s, []) == Some(s);
      assert Run(p, s, [MainStartsCompute]) == Some(Next(p, s, MainStartsCompute));
    } else {
      forall es ensures var r := Run(p, s, es); r.Some? ==> r.value.sh.status in {s.sh.status, Terminated} {
        if Started(s) {
          TerminationIsSticky(p, s, es);
        } else {
          TerminationBeforeSpecNeverCompletes(p, s, es);
        }
      }
    }
  }

  /** Once the configurator has seen `Failed` and stopped, no refresh request is ever carried out. */
  lemma StoppedConfiguratorNeverRefreshes(p: Params, s: State, es: seq<Event>)
    requires Reachable(p, s) && s.conf == Stopped
    ensures var r := Run(p, s, es);
            r.Some? ==> r.value.sh.status == Failed || r.value.sh.status == RefreshConfigurationPending
  {
    ReachableInv(p, s);
    var P := (t: State) => t.conf == Stopped;
    forall t, e | Inv(p, t) && P(t) && Enabled(p, t, e) ensures P(Next(p, t, e)) {
    }
    RunStays(p, P, s, es);
    RunKeepsInv(p, s, es);
  }
}
