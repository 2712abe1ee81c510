/**
 * The slot record of pi/portal.py with the handlers and threads that write to it, cut where
 * a thread sleeps or waits for the slot lock. A method that is a whole step of `SlotModel` does exactly
 * that step, from a reachable record to a reachable record, so every theorem of `SlotTheorems` about
 * reachable slots holds before and after it.
 */
module PortalSlot {
  import opened Common
  import opened FlapWindow
  import opened Gpio
  import opened SlotModel
  import opened SlotTheorems
  import P = Portal

  /**
   * The slot dict, grouped as in `SlotModel`: what is plugged in, flap detection, recovery, the proxy,
   * and the threads under way.
   */
  class SlotRecord {
    const cfg: Config
    var dev: Device
    var flap: Flap
    var care: Care
    var proxy: Proxy
    var jobs: seq<Job>

    ghost function View(): Slot
      reads this
    {
      Slot(cfg, dev, flap, care, proxy, jobs)
    }

    /** The record is one that some run of the machine leads to; every step below keeps it so. */
    ghost predicate Valid()
      reads this
    {
      Reachable(View())
    }

    /** `load_config` and `_make_dynamic_slot`; `main` gives a configured slot its URL beforehand. */
    constructor (cfg: Config, hostIp: string)
      ensures this.cfg == cfg && Initial(View()) && Valid() && proxy.hostIp == hostIp
    {
      this.cfg := cfg;
      dev := Device(false, None, Absent, 0, None, None);
      flap := Flap(false, [], [], 0.0);
      care := Care(false, 0, [], Untouched, NoneYet, 0, 0, false);
      proxy := Proxy(false, None, if CanListen(cfg) then Some(Url(hostIp, cfg.tcpPort.value)) else None,
                     hostIp, Free, {});
      jobs := [];
      new;
      InitialIsReachable(View());
    }

    method GoHome()
      modifies this`dev
      ensures dev == SlotModel.GoHome(old(dev))
    {
      dev := dev.(phase := if dev.present then Idle else Absent);
    }

    // ---- hotplug ----------------------------------------------------------------------

    method HandleHotplug(action: Action, devnode: string, seqNo: nat, now: real)
      requires Valid()
      requires Enabled(View(), Hotplug(action, devnode, seqNo, now))
      modifies this
      ensures View() == Next(old(View()), Hotplug(action, devnode, seqNo, now)) && Valid()
    {
      ReachableClosed(View(), Hotplug(action, devnode, seqNo, now));
      dev := dev.(seqNo := seqNo, lastAction := Some(action), lastEventTs := Some(now));
      if care.recovering {
        flap := flap.(clock := now);
        return;
      }
      NoteEvent(now);
      if !flap.flapping && |flap.eventTimes| >= FLAP_THRESHOLD {
        flap := flap.(flapping := true);
        dev := dev.(phase := Flapping);
        // the handler waits for the slot lock inside; the rest of it runs in DispatchRecovery
        StartFlapRecovery(Some(Rest(action, devnode)));
      } else {
        FinishHotplug(action, devnode);
      }
    }

    /** Append, prune, and call off an old flapping state if the device was quiet long enough. */
    method NoteEvent(now: real)
      requires !care.recovering
      modifies this`flap, this`dev
      ensures flap == SlotModel.NoteEvent(old(flap), now)
      ensures dev == if old(flap).flapping && !flap.flapping then SlotModel.GoHome(old(dev)) else old(dev)
    {
      var times := flap.eventTimes + [now];
      times := Recent(times, now);
      flap := flap.(eventTimes := times, events := flap.events + [Event(now, false)], clock := now);
      if flap.flapping && !care.recovering {
        if |times| < 2 {
          flap := flap.(flapping := false);
          GoHome();
        } else {
          var gap := times[|times| - 1] - times[|times| - 2];
          if gap >= FLAP_COOLDOWN_S {
            flap := flap.(flapping := false);
            GoHome();
          }
        }
      }
    }

    method FinishHotplug(action: Action, devnode: string)
      modifies this`dev, this`flap, this`jobs
      ensures View() == SlotModel.FinishHotplug(old(View()), action, devnode)
    {
      match action
      case Add =>
        dev := dev.(present := true, devnode := Some(devnode));
        if !flap.flapping {
          dev := dev.(phase := Idle);
          if cfg.tcpPort.Some? {
            jobs := jobs + [BgStart];
            flap := flap.(events := MarkStart(flap.events));
          }
        }
      case Remove =>
        dev := dev.(present := false);
        if !flap.flapping { dev := dev.(phase := Absent); }
        if cfg.tcpPort.Some? && proxy.running {
          jobs := jobs + [BgStop];
        }
      case OtherAction(_) =>
    }

    // ---- polls ------------------------------------------------------------------------

    /** One poll of the slot: `_refresh_slot_health`, then `_slot_info`. */
    method Poll(now: real, answers: bool)
      requires Valid()
      requires Enabled(View(), Step.Poll(now, answers))
      modifies this
      ensures View() == Next(old(View()), Step.Poll(now, answers)) && Valid()
    {
      ReachableClosed(View(), Step.Poll(now, answers));
      RefreshSlotHealth(answers);
      flap := flap.(clock := now);
      SlotInfo(now);
    }

    method RefreshSlotHealth(answers: bool)
      modifies this`proxy, this`dev
      ensures View() == RefreshHealth(old(View()), answers)
    {
      if proxy.running && proxy.pid.Some? {
        if !answers {
          proxy := proxy.(running := false, pid := None, url := None);
          GoHome();
        }
      }
    }

    method SlotInfo(now: real)
      modifies this`flap, this`dev
      ensures View() == ClearStaleFlapping(old(View()), now)
    {
      if flap.flapping && !care.recovering {
        var recent := Recent(flap.eventTimes, now);
        flap := flap.(eventTimes := recent);
        if |recent| < FLAP_THRESHOLD {
          flap := flap.(flapping := false);
          GoHome();
        }
      }
    }

    // ---- recovery ---------------------------------------------------------------------

    /** `_start_flap_recovery` up to the slot lock. */
    method StartFlapRecovery(rest: Option<Rest>)
      modifies this`care, this`dev
      ensures care == if old(care).recovering then old(care) else StartRescue(old(care), rest)
      ensures dev == if old(care).recovering then old(dev) else old(dev).(phase := Recovering)
    {
      if care.recovering { return; }
      care := care.(recovering := true, rescues := care.rescues + [Dispatch(rest)]);
      dev := dev.(phase := Recovering);
    }

    method HandleSerialRecover()
      requires Valid()
      modifies this
      ensures View() == Next(old(View()), Recover) && Valid()
    {
      ReachableClosed(View(), Recover);
      care := care.(retries := 0, recoverCalls := care.recoverCalls + 1);
      flap := flap.(flapping := true);
      StartFlapRecovery(None);
    }

    /** The dispatcher gets the lock: stop the proxy if it is on record, else go straight on. */
    method DispatchRecovery(i: nat, rest: Option<Rest>)
      requires Valid()
      requires Enabled(View(), RescueStep(i, Works, Works)) && care.rescues[i] == Dispatch(rest)
      modifies this
      ensures View() == Next(old(View()), RescueStep(i, Works, Works)) && Valid()
    {
      ReachableClosed(View(), RescueStep(i, Works, Works));
      care := care.(rescues := Without(care.rescues, i));
      if proxy.running && proxy.pid.Some? {
        proxy := proxy.(lock := Stopping(proxy.pid, ForRecovery(rest)));
      } else {
        UnbindAndSpawn(rest);
      }
    }

    method UnbindAndSpawn(rest: Option<Rest>)
      modifies this`care, this`dev, this`flap, this`jobs
      ensures View() == SlotModel.UnbindAndSpawn(old(View()), rest)
    {
      if cfg.usbDevice.Some? {
        var thread := if cfg.gpioBoot.Some? then GpioCooldown else NoGpioReady;
        care := care.(usb := Unbound, rescues := care.rescues + [thread]);
      } else {
        care := care.(recovering := false, ending := UsbUnknown);
        dev := dev.(phase := Flapping);
      }
      if rest.Some? {
        FinishHotplug(rest.value.action, rest.value.devnode);
      }
    }

    method UsbRebind()
      modifies this`care
      ensures care == Rebind(old(care))
    {
      care := care.(usb := Rebound, rebinds := care.rebinds + 1);
    }

    /** A recovery thread is over. */
    method EndRescue(i: nat, ending: Ending)
      requires i < |care.rescues|
      modifies this`care
      ensures care == End(old(care), i, ending)
    {
      care := care.(rescues := Without(care.rescues, i), recovering := false, ending := ending);
    }

    /** A recovery thread reaches its next sleep. */
    method SleepAt(i: nat, stage: Rescue)
      requires i < |care.rescues|
      modifies this`care
      ensures care == Goto(old(care), i, stage)
    {
      care := care.(rescues := Put(care.rescues, i, stage));
    }

    /** `_recover_without_gpio` up to its sleep. */
    method BeginWithoutGpio(i: nat)
      requires Valid()
      requires i < |care.rescues| && care.rescues[i] == NoGpioReady
      modifies this
      ensures View() == Next(old(View()), RescueStep(i, Works, Works)) && Valid()
    {
      ReachableClosed(View(), RescueStep(i, Works, Works));
      var retry := care.retries;
      if retry >= FLAP_MAX_RETRIES {
        EndRescue(i, RetriesExhausted);
        dev := dev.(phase := Flapping);
      } else {
        SleepAt(i, NoGpioCooldown(retry, flap.clock));
      }
    }

    /** `_recover_without_gpio` after its sleep, with the counter it read before. */
    method FinishWithoutGpio(i: nat, retry: nat)
      requires Valid()
      requires i < |care.rescues| && care.rescues[i].NoGpioCooldown? && care.rescues[i].retry == retry
      requires Enabled(View(), RescueStep(i, Works, Works))
      modifies this
      ensures View() == Next(old(View()), RescueStep(i, Works, Works)) && Valid()
    {
      ReachableClosed(View(), RescueStep(i, Works, Works));
      EndRescue(i, Completed);
      care := care.(retries := retry + 1);
      flap := flap.(flapping := false, eventTimes := [], events := []);
      dev := dev.(phase := Idle);
      UsbRebind();
    }

    /** The first half of the EN pulse, if the slot has such a pin; a call that raises ends the pulse. */
    method PullEnLow(gpio: Tracker, en: Outcome) returns (low: bool)
      requires Agrees(gpio.View()) && en != OpenFails
      modifies gpio, gpio.chip
      ensures low <==> cfg.gpioEn.Some? && en == Works
      ensures gpio.View() == if cfg.gpioEn.Some? then SetLine(old(gpio.View()), cfg.gpioEn.value, Drive(Low), en)
                             else old(gpio.View())
    {
      low := false;
      if cfg.gpioEn.Some? {
        low := gpio.Set(cfg.gpioEn.value, Drive(Low), en);
      }
    }

    /** `_recover_with_gpio` from the end of the cooldown to its next sleep. */
    method HoldBoot(gpio: Tracker, i: nat, boot: Outcome, en: Outcome)
      requires Valid()
      requires cfg.gpioBoot.Some? && i < |care.rescues| && care.rescues[i] == GpioCooldown
      requires Agrees(gpio.View()) && Fits(gpio.View(), boot) && en != OpenFails
      modifies this, gpio, gpio.chip
      ensures View() == Next(old(View()), RescueStep(i, boot, en)) && Valid()
      ensures gpio.View() == P.RescueLines(old(gpio.View()), old(View()), GpioCooldown, boot, en)
    {
      ReachableClosed(View(), RescueStep(i, boot, en));
      var held := gpio.Set(cfg.gpioBoot.value, Drive(Low), boot);
      if !held {
        EndRescue(i, BootDriveFailed);
        dev := dev.(phase := Flapping);
        return;
      }
      care := care.(freed := false);
      var low := PullEnLow(gpio, en);
      if low {
        SleepAt(i, GpioEnLow);
      } else {
        SleepAt(i, GpioRebound);
        UsbRebind();
      }
    }

    /** The second half of the EN pulse. */
    method RaiseEn(gpio: Tracker, i: nat, en: Outcome)
      requires Valid()
      requires cfg.gpioEn.Some? && i < |care.rescues| && care.rescues[i] == GpioEnLow
      requires Agrees(gpio.View()) && Fits(gpio.View(), en)
      modifies this, gpio, gpio.chip
      ensures View() == Next(old(View()), RescueStep(i, Works, en)) && Valid()
      ensures gpio.View() == P.RescueLines(old(gpio.View()), old(View()), GpioEnLow, Works, en)
    {
      ReachableClosed(View(), RescueStep(i, Works, en));
      var high := gpio.Set(cfg.gpioEn.value, Drive(High), en);
      if high {
        SleepAt(i, GpioEnHigh);
      } else {
        SleepAt(i, GpioRebound);
        UsbRebind();
      }
    }

    method RebindAfterPulse(i: nat)
      requires Valid()
      requires i < |care.rescues| && care.rescues[i] == GpioEnHigh
      modifies this
      ensures View() == Next(old(View()), RescueStep(i, Works, Works)) && Valid()
    {
      ReachableClosed(View(), RescueStep(i, Works, Works));
      SleepAt(i, GpioRebound);
      UsbRebind();
    }

    method EnterDownloadMode(i: nat)
      requires Valid()
      requires i < |care.rescues| && care.rescues[i] == GpioRebound
      modifies this
      ensures View() == Next(old(View()), RescueStep(i, Works, Works)) && Valid()
    {
      ReachableClosed(View(), RescueStep(i, Works, Works));
      EndRescue(i, Completed);
      flap := flap.(flapping := false);
      care := care.(retries := 0);
      dev := dev.(phase := DownloadMode);
    }

    /** `_release_slot_gpio` up to the EN pulse's sleep. */
    method ReleaseSlotGpio(gpio: Tracker, boot: Outcome, en: Outcome) returns (ok: bool)
      requires Valid()
      requires Agrees(gpio.View()) && Fits(gpio.View(), boot) && en != OpenFails
      modifies this, gpio, gpio.chip
      ensures ok <==> old(MayRelease(View())) && boot == Works
      ensures View() == Next(old(View()), Release(boot, en)) && Valid()
      ensures gpio.View() == P.LinesAfter(old(gpio.View()), old(View()), Release(boot, en))
    {
      ReachableClosed(View(), Release(boot, en));
      if cfg.gpioBoot.None? { return false; }
      if dev.phase != DownloadMode { return false; }
      ok := gpio.Set(cfg.gpioBoot.value, HighZ, boot);
      care := care.(freed := true);
      if !ok {
        return;
      }
      var low := PullEnLow(gpio, en);
      if low {
        jobs := jobs + [ReleaseTail];
      } else {
        dev := dev.(phase := Idle);
        care := care.(retries := 0);
      }
    }

    method FinishRelease(gpio: Tracker, i: nat, en: Outcome)
      requires Valid()
      requires cfg.gpioEn.Some? && i < |jobs| && jobs[i] == ReleaseTail
      requires Agrees(gpio.View()) && Fits(gpio.View(), en)
      modifies this, gpio, gpio.chip
      ensures View() == Next(old(View()), JobStep(i, true, en)) && Valid()
      ensures gpio.View() == P.LinesAfter(old(gpio.View()), old(View()), JobStep(i, true, en))
    {
      ReachableClosed(View(), JobStep(i, true, en));
      var _ := gpio.Set(cfg.gpioEn.value, Drive(High), en);
      dev := dev.(phase := Idle);
      care := care.(retries := 0);
      jobs := Without(jobs, i);
    }

    // ---- serial services --------------------------------------------------------------

    /** `serial_reset` up to the slot lock. */
    method SerialReset() returns (ok: bool)
      requires Valid()
      modifies this`jobs
      ensures View() == Next(old(View()), Step.SerialReset) && Valid()
      ensures ok <==> HasDevnode(dev) && dev.present
    {
      ReachableClosed(View(), Step.SerialReset);
      if dev.devnode.None? || dev.devnode.value == "" { return false; }
      if !dev.present { return false; }
      jobs := jobs + [ResetHead];
      ok := true;
    }

    method SerialResetLocked(i: nat)
      requires Valid()
      requires Enabled(View(), Acquire(i)) && jobs[i] == ResetHead
      modifies this
      ensures View() == Next(old(View()), Acquire(i)) && Valid()
    {
      ReachableClosed(View(), Acquire(i));
      jobs := Without(jobs, i);
      proxy := proxy.(lock := Stopping(proxy.pid, ForReset));
    }

    /** The reset pulse and the read of the boot output, up to the lock; `ok` is false if the port does not open. */
    method PulseAndRead(i: nat, ok: bool)
      requires Valid()
      requires i < |jobs| && jobs[i] == ResetOpen
      modifies this`dev, this`jobs
      ensures View() == Next(old(View()), JobStep(i, ok, Works)) && Valid()
    {
      ReachableClosed(View(), JobStep(i, ok, Works));
      if ok {
        jobs := Put(jobs, i, ResetTail);
      } else {
        GoHome();
        jobs := Without(jobs, i);
      }
    }

    /** An exception out of the pulse or the read leaves the slot as it is. */
    method SerialResetRaised(i: nat)
      requires Valid()
      requires i < |jobs| && jobs[i] == ResetOpen
      modifies this`jobs
      ensures View() == Next(old(View()), ResetRaises(i)) && Valid()
    {
      ReachableClosed(View(), ResetRaises(i));
      jobs := Without(jobs, i);
    }

    method SerialResetRestart(i: nat)
      requires Valid()
      requires Enabled(View(), Acquire(i)) && jobs[i] == ResetTail
      modifies this
      ensures View() == Next(old(View()), Acquire(i)) && Valid()
    {
      ReachableClosed(View(), Acquire(i));
      jobs := Without(jobs, i);
      if !proxy.running {
        BeginStart(ByReset);
      } else {
        ReturnFromStart(ByReset, true);
      }
    }

    /** `serial_monitor` up to the connection. */
    method SerialMonitor() returns (ok: bool)
      requires Valid()
      modifies this`jobs
      ensures View() == Next(old(View()), Step.SerialMonitor) && Valid()
      ensures ok <==> CanListen(cfg) && proxy.running
    {
      ReachableClosed(View(), Step.SerialMonitor);
      if cfg.tcpPort.None? || cfg.tcpPort.value == 0 { return false; }
      if !proxy.running { return false; }
      jobs := jobs + [MonitorOpen];
      ok := true;
    }

    method MonitorConnected(i: nat, ok: bool)
      requires Valid()
      requires i < |jobs| && jobs[i] == MonitorOpen
      modifies this`dev, this`jobs
      ensures View() == Next(old(View()), JobStep(i, ok, Works)) && Valid()
    {
      ReachableClosed(View(), JobStep(i, ok, Works));
      if ok {
        dev := dev.(phase := Monitoring);
        jobs := Put(jobs, i, MonitorEnd);
      } else {
        jobs := Without(jobs, i);
      }
    }

    method MonitorClosed(i: nat)
      requires Valid()
      requires i < |jobs| && jobs[i] == MonitorEnd
      modifies this`dev, this`jobs
      ensures View() == Next(old(View()), JobStep(i, true, Works)) && Valid()
    {
      ReachableClosed(View(), JobStep(i, true, Works));
      GoHome();
      jobs := Without(jobs, i);
    }

    // ---- proxy life cycle -------------------------------------------------------------

    /** `_bg_start` once it has the lock. */
    method BgStartLocked(i: nat)
      requires Valid()
      requires Enabled(View(), Acquire(i)) && jobs[i] == BgStart
      modifies this
      ensures View() == Next(old(View()), Acquire(i)) && Valid()
    {
      ReachableClosed(View(), Acquire(i));
      jobs := Without(jobs, i);
      if flap.flapping || care.recovering { return; }
      if proxy.running && proxy.pid.Some? {
        proxy := proxy.(lock := Stopping(proxy.pid, ForStart(ByHotplug)));
      } else {
        BeginStart(ByHotplug);
      }
    }

    method BgStopLocked(i: nat)
      requires Valid()
      requires Enabled(View(), Acquire(i)) && jobs[i] == BgStop
      modifies this
      ensures View() == Next(old(View()), Acquire(i)) && Valid()
    {
      ReachableClosed(View(), Acquire(i));
      jobs := Without(jobs, i);
      proxy := proxy.(lock := Stopping(proxy.pid, ForHotplug));
    }

    /** `stop_proxy` comes back; its caller goes on to its next sleep or gives the lock back. */
    method FinishStop(victim: Option<Pid>, why: Stopper)
      requires Valid()
      requires proxy.lock == Stopping(victim, why)
      modifies this
      ensures View() == Next(old(View()), Step.FinishStop) && Valid()
    {
      ReachableClosed(View(), Step.FinishStop);
      proxy := proxy.(live := proxy.live - Elements(victim));
      proxy := proxy.(running := false, pid := None, url := None);
      proxy := proxy.(lock := Free);
      match why
      case ForHotplug =>
      case ForApi => GoHome();
      case ForReset =>
        dev := dev.(phase := Resetting);
        jobs := jobs + [ResetOpen];
      case ForStart(who) => BeginStart(who);
      case ForRecovery(rest) => UnbindAndSpawn(rest);
    }

    method BeginStart(who: Launcher)
      modifies this`dev, this`proxy
      ensures View() == EnterStart(old(View()), who)
    {
      if who.ByApi? {
        dev := dev.(devnode := Some(who.devnode), present := true);
      }
      proxy := proxy.(lock := Settling(who));
    }

    /** `_handle_start` once it has the lock. */
    method HandleStart(devnode: string)
      requires Valid()
      requires proxy.lock == Free
      modifies this
      ensures View() == Next(old(View()), ApiStart(devnode)) && Valid()
    {
      ReachableClosed(View(), ApiStart(devnode));
      if proxy.running && proxy.pid.Some? {
        proxy := proxy.(lock := Stopping(proxy.pid, ForStart(ByApi(devnode))));
      } else {
        BeginStart(ByApi(devnode));
      }
    }

    /** `_handle_stop` once it has the lock. */
    method HandleStop()
      requires Valid()
      requires proxy.lock == Free
      modifies this`proxy
      ensures View() == Next(old(View()), ApiStop) && Valid()
    {
      ReachableClosed(View(), ApiStop);
      proxy := proxy.(lock := Stopping(proxy.pid, ForApi));
    }

    /** One device that `scan_existing_devices` finds for this slot. */
    method ScanExistingDevice(devnode: string)
      requires Valid() && Enabled(View(), BootScan(devnode))
      modifies this`dev, this`proxy
      ensures View() == Next(old(View()), BootScan(devnode)) && Valid()
    {
      ReachableClosed(View(), BootScan(devnode));
      dev := dev.(present := true, devnode := Some(devnode));
      dev := dev.(phase := Idle);
      if cfg.tcpPort.Some? && !proxy.running {
        BeginStart(ByBootScan);
      }
    }

    /** `start_proxy` launches the proxy, which then has to answer on its port. */
    method LaunchProxy(proc: Pid, who: Launcher)
      requires Valid()
      requires proxy.lock == Settling(who) && proc !in proxy.live
      modifies this`proxy
      ensures View() == Next(old(View()), Launch(proc)) && Valid()
    {
      ReachableClosed(View(), Launch(proc));
      proxy := proxy.(live := proxy.live + {proc}, lock := Starting(proc, who));
    }

    /** No executable, no device node after the settle time, or no process. */
    method StartProxyNotLaunched(who: Launcher)
      requires Valid()
      requires proxy.lock == Settling(who)
      modifies this`dev, this`proxy
      ensures View() == Next(old(View()), LaunchFails) && Valid()
    {
      ReachableClosed(View(), LaunchFails);
      ReturnFromStart(who, false);
    }

    /** `start_proxy` saw the port answer: put the proxy on record and return to the launcher. */
    method StartProxyRecorded(proc: Pid, who: Launcher)
      requires Valid()
      requires proxy.lock == Starting(proc, who) && CanListen(cfg)
      modifies this
      ensures View() == Next(old(View()), StartRecorded) && Valid()
    {
      ReachableClosed(View(), StartRecorded);
      proxy := proxy.(running := true, pid := Some(proc), url := Some(Url(proxy.hostIp, cfg.tcpPort.value)));
      dev := dev.(phase := Idle);
      ReturnFromStart(who, true);
    }

    /** `start_proxy` gave up on the process it launched. */
    method StartProxyAbandoned(proc: Pid, who: Launcher)
      requires Valid()
      requires proxy.lock == Starting(proc, who)
      modifies this
      ensures View() == Next(old(View()), StartAbandoned) && Valid()
    {
      ReachableClosed(View(), StartAbandoned);
      proxy := proxy.(live := proxy.live - {proc});
      ReturnFromStart(who, false);
    }

    method ReturnFromStart(who: Launcher, ok: bool)
      modifies this`dev, this`proxy
      ensures View() == LeaveStart(old(View()), who, ok)
    {
      match who {
        case ByApi(_) =>
          if !ok && dev.phase != Idle && dev.phase != Flapping { dev := dev.(phase := Idle); }
        case ByReset => if dev.phase == Resetting { GoHome(); }
        case _ =>
      }
      proxy := proxy.(lock := Free);
    }

    /** The body of the loop in `_refresh_host_ip`, which runs over all slots once the address differs. */
    method TakeHostIp(newIp: string)
      requires Valid()
      modifies this`proxy
      ensures View() == Next(old(View()), HostIp(newIp)) && Valid()
    {
      ReachableClosed(View(), HostIp(newIp));
      var changed := newIp != proxy.hostIp;
      proxy := proxy.(hostIp := newIp);
      if changed && proxy.running && CanListen(cfg) {
        proxy := proxy.(url := Some(Url(newIp, cfg.tcpPort.value)));
      }
    }
  }

  /** `_refresh_host_ip`: the new address reaches every running slot's URL. */
  method RefreshHostIp(slots: seq<SlotRecord>, newIp: string)
    requires forall i, j :: 0 <= i < j < |slots| ==> slots[i] != slots[j]
    requires forall i :: 0 <= i < |slots| ==> slots[i].Valid()
    modifies slots
    ensures forall i :: 0 <= i < |slots| ==> slots[i].Valid()
    ensures forall i :: 0 <= i < |slots| ==> slots[i].View() == Next(old(slots[i].View()), HostIp(newIp))
  {
    for i := 0 to |slots|
      invariant forall k :: 0 <= k < i ==> slots[k].View() == Next(old(slots[k].View()), HostIp(newIp))
      invariant forall k :: i <= k < |slots| ==> unchanged(slots[k])
      invariant forall k :: 0 <= k < |slots| ==> slots[k].Valid()
    {
      slots[i].TakeHostIp(newIp);
    }
  }
}
