/**
 `ComputeNode` as the source writes it: fields updated in place under the mutex.

 Each method is one stretch of code that holds the lock.  Its contract equates the
 new fields with the critical section of `ComputeStatus` that the transition system
 is built from, so what is proved of every schedule there is proved of these bodies.
 */
module ComputeNodeObject {
  import opened Prelude
  import opened ComputeStatus

  class ComputeNode {
    const params: Params
    var status: Status
    var pspec: Option<ParsedSpec>
    /** the condition variable: who waits on it and has not been notified */
    var asleep: set<Thread>

    ghost function View(): Shared
      reads this
    {
      Shared(status, pspec, asleep)
    }

    constructor (params: Params, cliSpec: Option<ParsedSpec>)
      ensures this.params == params && View() == Start(cliSpec).sh
    {
      this.params := params;
      status := Empty;
      pspec := cliSpec;
      asleep := {};
    }

    method NotifyAll()
      modifies `asleep
      ensures asleep == {}
    {
      asleep := {};
    }

    method Wait(t: Thread)
      modifies `asleep
      ensures asleep == old(asleep) + {t}
    {
      asleep := asleep + {t};
    }

    method SetStatus(s: Status)
      modifies `status, `asleep
      ensures View() == Announce(old(View()), s)
    {
      status := s;
      NotifyAll();
    }

    method Configure(spec: ParsedSpec) returns (accepted: bool)
      modifies this
      ensures View() == ConfigureSection(old(View()), spec)
      ensures accepted <==> old(status) == Empty || old(status) == Running
    {
      if status != Empty && status != Running {
        return false;
      }
      pspec := Some(spec);
      SetStatus(ConfigurationPending);
      accepted := true;
    }

    /** `exitQueued` stands for the task that exits the process five seconds later. */
    method Terminate(mode: TerminateMode) returns (accepted: bool, exitQueued: bool)
      modifies `status, `asleep
      ensures View() == TerminateSection(params, old(View()), mode)
      ensures accepted <==> old(status) in {Empty, Running, Terminated}
      ensures exitQueued <==> params.lakebaseMode && old(status) == Empty
      ensures status == (if old(status) !in {Empty, Running} || exitQueued then old(status)
                         else if mode == Fast then TerminationPendingFast else TerminationPendingImmediate)
    {
      exitQueued := false;
      if status == Terminated {
        return true, false;
      }
      if status != Empty && status != Running {
        return false, false;
      }
      if params.lakebaseMode && status == Empty {
        return true, true;
      }
      var target := match mode { case Fast => TerminationPendingFast case Immediate => TerminationPendingImmediate };
      SetStatus(target);
      accepted := true;
    }

    method SignalRefreshConfiguration() returns (ok: bool)
      modifies `status, `asleep
      ensures View() == RefreshSection(old(View()))
      ensures ok <==> old(status) in {Running, Failed, RefreshConfigurationPending, Init}
    {
      if status == Running || status == Failed || status == RefreshConfigurationPending {
        status := RefreshConfigurationPending;
        NotifyAll();
        ok := true;
      } else {
        ok := status == Init;
      }
    }

    /** The locked stretch at the end of `promote_impl`. */
    method PromoteSetsSpec(spec: ParsedSpec)
      modifies `pspec
      ensures View() == PromoteSection(old(View()), spec)
    {
      pspec := Some(spec);
    }

    method WaitSpec() returns (pc: MainPc)
      modifies `asleep
      ensures (View(), pc) == WaitSpecSection(old(View()))
    {
      if status != ConfigurationPending {
        Wait(Main);
        return SleepingForSpec;
      }
      pc := SpecReady;
    }

    method CleanupAfterPostgresExit() returns (delayExit: bool)
      modifies `status, `asleep
      ensures View() == CleanupSection(old(View()))
      ensures delayExit <==> old(status) == TerminationPendingFast
    {
      delayExit := status == TerminationPendingFast;
      if status == TerminationPendingFast || status == TerminationPendingImmediate {
        status := Terminated;
        NotifyAll();
      }
    }

    /** The loop body of `configurator_main_loop` while it holds the lock. */
    method ConfiguratorHoldsLock(woken: bool) returns (pc: ConfPc)
      modifies `status, `asleep
      ensures (View(), pc) == ConfiguratorSection(params, old(View()), woken)
    {
      if params.lakebaseMode {
        if status != ConfigurationPending && status != RefreshConfigurationPending && status != Failed {
          Wait(Configurator);
          return Sleeping;
        }
      } else {
        if !woken && status != ConfigurationPending {
          Wait(Configurator);
          return Sleeping;
        }
      }
      if status == ConfigurationPending {
        SetStatus(Configuration);
        pc := Configuring;
      } else if status == RefreshConfigurationPending {
        SetStatus(RefreshConfiguration);
        pc := Fetching;
      } else if status == Failed {
        pc := Stopped;
      } else {
        pc := LoopTop;
      }
    }

    method ConfiguratorReceivesSpec(spec: ParsedSpec) returns (pc: ConfPc)
      modifies this
      ensures (View(), pc) == FetchedSection(old(View()), spec)
    {
      var same := match pspec { case Some(ps) => ps.pageserverConninfo == spec.pageserverConninfo case None => false };
      if same {
        status := Running;
        NotifyAll();
        return LoopTop;
      }
      pspec := Some(spec);
      pc := Reconfiguring;
    }

    method CertWatcherHoldsLock() returns (pc: CertPc)
      modifies `status, `asleep
      ensures (View(), pc) == CertSection(old(View()))
    {
      match status {
        case ConfigurationPending | Running =>
          SetStatus(ConfigurationPending);
          pc := WaitingForCert;
        case Failed | TerminationPendingFast | TerminationPendingImmediate | Terminated =>
          pc := CertStopped;
        case Init | Configuration | RefreshConfiguration | RefreshConfigurationPending | Empty =>
          Wait(CertWatcher);
          pc := CertSleeping;
      }
    }
  }
}
