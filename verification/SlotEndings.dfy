/**
 * How a slot's longer operations end: resets, monitors, releases and recoveries, whatever came in between where
 * that can be said, and over whole runs of their steps when nothing does.
 */
module SlotEndings {
  import opened Common
  import opened FlapWindow
  import opened Gpio
  import opened SlotModel
  import opened SlotTheorems
  import opened SlotService

  function HomePhase(d: Device): Phase { if d.present then Idle else Absent }

  // ---- reset ------------------------------------------------------------------------

  /** The tail of a reset, when no proxy is running, starts one. */
  lemma ResetTailServes(s: Slot, i: nat, p: Pid) returns (t: Slot)
    requires Reachable(s) && s.proxy.lock == Free && i < |s.jobs| && s.jobs[i] == ResetTail
    requires !s.proxy.running && CanListen(s.cfg)
    ensures Leads(s, [Acquire(i), Launch(p), StartRecorded], t) && Serves(t, p) && t.proxy.hostIp == s.proxy.hostIp
    ensures t.jobs == Without(s.jobs, i) && t.flap == s.flap && t.care == s.care && t.dev == s.dev.(phase := Idle)
  {
    ReachableIsGood(s);
    t := RestartServes(s, Acquire(i), ByReset, p);
    assert Restart(s, Acquire(i), p) == [Acquire(i), Launch(p), StartRecorded];
  }

  /** If that start fails, or a proxy is running already, the slot does not go on resetting. */
  lemma ResetTailEnds(s: Slot, i: nat)
    requires Reachable(s) && s.proxy.lock == Free && i < |s.jobs| && s.jobs[i] == ResetTail
    ensures var dev := if s.dev.phase == Resetting then s.dev.(phase := HomePhase(s.dev)) else s.dev;
            if s.proxy.running then Next(s, Acquire(i)) == s.(jobs := Without(s.jobs, i), dev := dev)
            else Leads(s, [Acquire(i), LaunchFails], s.(jobs := Without(s.jobs, i), dev := dev))
  {
    if !s.proxy.running {
      var m := Next(s, Acquire(i));
      TwoSteps(s, Acquire(i), LaunchFails, Next(m, LaunchFails));
    }
  }

  /** The steps of a reset up to the port's opening. */
  function OpenSteps(n: nat): seq<Step> { [SerialReset] + [Acquire(n), FinishStop] }

  lemma ResetTakesLock(s: Slot, n: nat)
    requires HasDevnode(s.dev) && s.dev.present && s.proxy.lock == Free && n == |s.jobs|
    ensures Enabled(s, SerialReset) && Enabled(Next(s, SerialReset), Acquire(n))
    ensures Next(Next(s, SerialReset), Acquire(n)) == WithLock(s, Stopping(s.proxy.pid, ForReset))
  {
    assert Without(s.jobs + [ResetHead], n) == s.jobs;
  }

  /** A reset up to the port's opening: no proxy is left. */
  lemma ResetOpens(s: Slot, n: nat) returns (m: Slot)
    requires Reachable(s) && HasDevnode(s.dev) && s.dev.present && s.proxy.lock == Free && n == |s.jobs|
    ensures Leads(s, OpenSteps(n), m)
    ensures Silent(m.proxy) && m.proxy.lock == Free && m.proxy.hostIp == s.proxy.hostIp && m.cfg == s.cfg
    ensures m.dev == s.dev.(phase := Resetting) && m.jobs == s.jobs + [ResetOpen]
    ensures m.flap == s.flap && m.care == s.care
  {
    ResetTakesLock(s, n);
    var a := Next(s, SerialReset);
    ReachableClosed(s, SerialReset);
    ReachableClosed(a, Acquire(n));
    var b := WithLock(s, Stopping(s.proxy.pid, ForReset));
    StopSilences(b);
    m := Next(b, FinishStop);
    TwoSteps(a, Acquire(n), FinishStop, m);
    LeadsFrom(s, SerialReset, [Acquire(n), FinishStop], m);
  }

  function ResetSteps(n: nat, p: Pid): seq<Step> {
    OpenSteps(n) + ([JobStep(n, true, Works)] + [Acquire(n), Launch(p), StartRecorded])
  }

  /** A reset of a present device that meets nobody: the old proxy is gone and a new one serves the slot. */
  lemma ResetServes(s: Slot, p: Pid) returns (t: Slot)
    requires Reachable(s) && HasDevnode(s.dev) && s.dev.present && s.proxy.lock == Free && CanListen(s.cfg)
    ensures Leads(s, ResetSteps(|s.jobs|, p), t) && Serves(t, p) && t.proxy.hostIp == s.proxy.hostIp
    ensures t.jobs == s.jobs && t.flap == s.flap && t.care == s.care && t.dev == s.dev.(phase := Idle)
  {
    var n := |s.jobs|;
    var m := ResetOpens(s, n);
    LeadsReachable(s, OpenSteps(n), m);
    ReachableClosed(m, JobStep(n, true, Works));
    var r := Next(m, JobStep(n, true, Works));
    t := ResetTailServes(r, n, p);
    assert Without(r.jobs, n) == s.jobs;
    LeadsFrom(m, JobStep(n, true, Works), [Acquire(n), Launch(p), StartRecorded], t);
    LeadsThrough(s, OpenSteps(n), m, [JobStep(n, true, Works)] + [Acquire(n), Launch(p), StartRecorded], t);
  }

  /** If the port does not open, the phase goes home and the proxy stays down. */
  lemma ResetWithoutPort(s: Slot) returns (t: Slot)
    requires Reachable(s) && HasDevnode(s.dev) && s.dev.present && s.proxy.lock == Free
    ensures Leads(s, OpenSteps(|s.jobs|) + [JobStep(|s.jobs|, false, Works)], t)
    ensures Silent(t.proxy) && t.jobs == s.jobs && t.dev == s.dev.(phase := Idle)
  {
    var n := |s.jobs|;
    var m := ResetOpens(s, n);
    t := Next(m, JobStep(n, false, Works));
    assert Without(m.jobs, n) == s.jobs;
    OneStep(m, JobStep(n, false, Works));
    LeadsThrough(s, OpenSteps(n), m, [JobStep(n, false, Works)], t);
  }

  /** If the pulse or the read raises, the reset is over, the proxy down, and the slot still says resetting. */
  lemma ResetThatRaises(s: Slot) returns (t: Slot)
    requires Reachable(s) && HasDevnode(s.dev) && s.dev.present && s.proxy.lock == Free
    ensures Leads(s, OpenSteps(|s.jobs|) + [ResetRaises(|s.jobs|)], t)
    ensures Silent(t.proxy) && t.jobs == s.jobs && t.dev == s.dev.(phase := Resetting)
  {
    var n := |s.jobs|;
    var m := ResetOpens(s, n);
    t := Next(m, ResetRaises(n));
    assert Without(m.jobs, n) == s.jobs;
    OneStep(m, ResetRaises(n));
    LeadsThrough(s, OpenSteps(n), m, [ResetRaises(n)], t);
  }

  /** Nothing happens without a device node or a present device. */
  lemma ResetRefused(s: Slot)
    requires !HasDevnode(s.dev) || !s.dev.present
    ensures Next(s, SerialReset) == s
  {
  }

  // ---- monitor ----------------------------------------------------------------------

  /** A monitor of a running proxy: monitoring while connected, home afterwards, and no other trace. */
  lemma MonitorComesHome(s: Slot) returns (m: Slot, t: Slot)
    requires Reachable(s) && s.proxy.running
    ensures var n := |s.jobs|;
            && Leads(s, [SerialMonitor, JobStep(n, true, Works)], m) && m.dev == s.dev.(phase := Monitoring)
            && Leads(m, [JobStep(n, true, Works)], t) && t == s.(dev := s.dev.(phase := HomePhase(s.dev)))
            && Leads(s, [SerialMonitor, JobStep(n, false, Works)], s)
  {
    ReachableIsGood(s);
    var n, a := |s.jobs|, Next(s, SerialMonitor);
    m := Next(a, JobStep(n, true, Works));
    t := Next(m, JobStep(n, true, Works));
    assert Without(a.jobs, n) == s.jobs && Without(m.jobs, n) == s.jobs;
    TwoSteps(s, SerialMonitor, JobStep(n, true, Works), m);
    TwoSteps(s, SerialMonitor, JobStep(n, false, Works), s);
    OneStep(m, JobStep(n, true, Works));
  }

  lemma MonitorRefused(s: Slot)
    requires Reachable(s) && !s.proxy.running
    ensures Next(s, SerialMonitor) == s
  {
  }

  // ---- release ----------------------------------------------------------------------

  /** Whatever came in between, the end of a release's EN pulse leaves the slot idle with a fresh counter. */
  lemma ReleaseTailEnds(s: Slot, i: nat, ok: bool, en: Outcome)
    requires i < |s.jobs| && s.jobs[i] == ReleaseTail
    ensures Enabled(s, JobStep(i, ok, en))
    ensures Next(s, JobStep(i, ok, en)) ==
            s.(dev := s.dev.(phase := Idle), care := s.care.(retries := 0), jobs := Without(s.jobs, i))
  {
  }

  /** A release in download mode that lets go of BOOT ends idle with a fresh counter, with or without an EN pulse. */
  lemma ReleaseEnds(s: Slot, en: Outcome, ok: bool, high: Outcome) returns (t: Slot)
    requires s.cfg.gpioBoot.Some? && s.dev.phase == DownloadMode
    ensures Leads(s, [Release(Works, en)] + (if s.cfg.gpioEn.Some? && en == Works
                                             then [JobStep(|s.jobs|, ok, high)] else []), t)
    ensures t == s.(dev := s.dev.(phase := Idle), care := s.care.(retries := 0, freed := true))
  {
    var m, n := Next(s, Release(Works, en)), |s.jobs|;
    OneStep(s, Release(Works, en));
    if s.cfg.gpioEn.Some? && en == Works {
      t := Next(m, JobStep(n, ok, high));
      assert Without(m.jobs, n) == s.jobs;
      OneStep(m, JobStep(n, ok, high));
      LeadsThrough(s, [Release(Works, en)], m, [JobStep(n, ok, high)], t);
    } else {
      t := m;
      assert [Release(Works, en)] + [] == [Release(Works, en)];
    }
  }

  /** Otherwise a release changes nothing, except that a call that raises may have let go of BOOT. */
  lemma ReleaseRefused(s: Slot, boot: Outcome, en: Outcome)
    requires s.cfg.gpioBoot.None? || s.dev.phase != DownloadMode || boot != Works
    ensures Next(s, Release(boot, en)) ==
            if s.cfg.gpioBoot.Some? && s.dev.phase == DownloadMode then s.(care := s.care.(freed := true)) else s
  {
  }

  // ---- how recoveries begin ---------------------------------------------------------

  /** The last two times of a window are less than a cooldown apart. */
  predicate CloseTogether(w: seq<real>) { |w| >= 2 && w[|w| - 1] - w[|w| - 2] < FLAP_COOLDOWN_S }

  /**
   * Outside recovery an event raises the alarm exactly if it makes six accepted ones in the window and the slot
   * was not flapping, or this event calls the flapping off. Then its handler waits to dispatch the recovery, and
   * the event is kept for the end of the handler.
   */
  lemma AlarmExactly(s: Slot, action: Action, devnode: string, seqNo: nat, now: real)
    requires Reachable(s) && s.flap.clock <= now && !s.care.recovering
    ensures var n, w := HandleHotplug(s, action, devnode, seqNo, now), Recent(Times(s.flap.events) + [now], now);
            && (n.care.recovering <==> |w| >= FLAP_THRESHOLD && !(s.flap.flapping && CloseTogether(w)))
            && (n.care.recovering ==>
                  && n.care == s.care.(recovering := true, rescues := [Dispatch(Some(Rest(action, devnode)))])
                  && n.flap.flapping && n.dev.phase == Recovering && n.jobs == s.jobs && n.proxy == s.proxy)
            && (!n.care.recovering ==> n.care == s.care)
  {
    ReachableIsGood(s);
    NoteEventFaithful(s.flap, now);
  }

  /** The operator's call always resets the counter, and starts a recovery unless one runs. */
  lemma RecoverExactly(s: Slot)
    requires Reachable(s)
    ensures var n := Next(s, Recover);
            && n.flap == s.flap.(flapping := true) && n.care.recovering && n.care.retries == 0
            && n.proxy == s.proxy && n.jobs == s.jobs
            && (if s.care.recovering then n.care.rescues == s.care.rescues && n.dev == s.dev
                else n.care.rescues == [Dispatch(None)] && n.dev == s.dev.(phase := Recovering))
  {
    ReachableIsGood(s);
  }

  // ---- how recoveries end -----------------------------------------------------------

  /** Flag, phase and counter of a slot whose recovery has just ended with this step. */
  predicate EndTold(s: Slot, step: Step, n: Slot) {
    if s.cfg.usbDevice.None? || GivesUp(s, step) || CannotDriveBoot(s, step) then
      && n.flap.flapping && n.dev.phase == Flapping && n.care.retries == s.care.retries
      && n.care.ending == if s.cfg.usbDevice.None? then UsbUnknown
                          else if GivesUp(s, step) then RetriesExhausted else BootDriveFailed
    else
      && !n.flap.flapping && n.care.ending == Completed
      && if s.cfg.gpioBoot.Some? then n.dev.phase == DownloadMode && n.care.retries == 0
         else
           && n.dev.phase == Idle && n.flap.eventTimes == [] && n.flap.events == []
           && step.RescueStep? && step.i < |s.care.rescues| && s.care.rescues[step.i].NoGpioCooldown?
           && n.care.retries == s.care.rescues[step.i].retry + 1
  }

  /**
   * A recovery ends flapping if the USB device is unknown, the retries are exhausted or BOOT could not be driven;
   * else calm, in download mode with a fresh counter if the slot has a BOOT pin, and idle with an empty window and
   * the next count if not.
   */
  lemma RecoveryEndsExactly(s: Slot, step: Step)
    requires Reachable(s) && Enabled(s, step)
    requires s.care.recovering && !Next(s, step).care.recovering
    ensures EndTold(s, step, Next(s, step))
  {
    ReachableIsGood(s);
    CareIsAfter(s, step);
    if step.RescueStep? {
      assert s.care.rescues[step.i] in s.care.rescues;
      RescueEndTold(s, step);
    } else {
      StopEndTold(s, step);
    }
  }

  lemma RescueEndTold(s: Slot, step: Step)
    requires Good(s) && Enabled(s, step) && step.RescueStep? && s.care.rescues[step.i] in s.care.rescues
    requires s.care.recovering && !CareAfter(s, step).recovering && Next(s, step).care == CareAfter(s, step)
    ensures EndTold(s, step, Next(s, step))
  {
    if s.care.rescues[step.i].Dispatch? {
      DispatchEndTold(s, step);
    } else {
      ThreadEndTold(s, step);
    }
  }

  lemma DispatchEndTold(s: Slot, step: Step)
    requires Good(s) && Enabled(s, step) && step.RescueStep? && s.care.rescues[step.i].Dispatch?
    requires s.care.recovering && !CareAfter(s, step).recovering && Next(s, step).care == CareAfter(s, step)
    ensures EndTold(s, step, Next(s, step))
  {
  }

  lemma ThreadEndTold(s: Slot, step: Step)
    requires Good(s) && Enabled(s, step) && step.RescueStep? && s.care.rescues[step.i] in s.care.rescues
    requires !s.care.rescues[step.i].Dispatch?
    requires s.care.recovering && !CareAfter(s, step).recovering && Next(s, step).care == CareAfter(s, step)
    ensures EndTold(s, step, Next(s, step))
  {
  }

  lemma StopEndTold(s: Slot, step: Step)
    requires Good(s) && Enabled(s, step) && !step.RescueStep?
    requires s.care.recovering && !CareAfter(s, step).recovering
    ensures EndTold(s, step, Next(s, step))
  {
  }

  // ---- whole recoveries -------------------------------------------------------------

  /** A recovery alone at one place, with no proxy left. */
  predicate At(s: Slot, rescue: Rescue) {
    && s.care.recovering && s.care.rescues == [rescue] && s.proxy.lock == Free
    && !s.proxy.running && s.proxy.live == {}
  }

  function DispatchSteps(s: Slot): seq<Step> { [WAKE] + (if s.proxy.running then [FinishStop] else []) }

  /** USB is unbound and the recovery's thread is at its start. */
  predicate UnboundFrom(s: Slot, m: Slot) {
    && m.cfg == s.cfg && m.flap == s.flap && At(m, if s.cfg.gpioBoot.Some? then GpioCooldown else NoGpioReady)
    && m.care.usb == Unbound && m.care.retries == s.care.retries && m.care.rebinds == s.care.rebinds
  }

  lemma UnbindsAtOnce(s: Slot, rest: Option<Rest>)
    requires Good(s) && s.care.rescues == [Dispatch(rest)] && s.proxy.lock == Free && s.cfg.usbDevice.Some?
    requires !s.proxy.running
    ensures Enabled(s, WAKE) && UnboundFrom(s, Next(s, WAKE))
  {
  }

  lemma UnbindsAfterStop(s: Slot, rest: Option<Rest>)
    requires Good(s) && s.care.rescues == [] && s.cfg.usbDevice.Some?
    requires s.proxy.lock.Stopping? && s.proxy.lock.why == ForRecovery(rest)
    ensures Enabled(s, FinishStop) && UnboundFrom(s, Next(s, FinishStop))
  {
  }

  lemma DispatchStops(s: Slot, rest: Option<Rest>)
    requires Good(s) && s.care.rescues == [Dispatch(rest)] && s.proxy.lock == Free && s.proxy.running
    ensures Enabled(s, WAKE)
    ensures var m := Next(s, WAKE);
            && m.proxy.lock.Stopping? && m.proxy.lock.why == ForRecovery(rest) && m.care.rescues == []
            && m.cfg == s.cfg && m.flap == s.flap
            && m.care.retries == s.care.retries && m.care.rebinds == s.care.rebinds
  {
  }

  /** A dispatched recovery takes the proxy down, then unbinds USB. */
  lemma DispatchUnbinds(s: Slot, rest: Option<Rest>) returns (m: Slot)
    requires Reachable(s) && s.care.rescues == [Dispatch(rest)] && s.proxy.lock == Free && s.cfg.usbDevice.Some?
    ensures Leads(s, DispatchSteps(s), m) && UnboundFrom(s, m)
  {
    ReachableIsGood(s);
    m := Next(s, WAKE);
    if s.proxy.running {
      DispatchStops(s, rest);
      GoodKept(s, WAKE);
      UnbindsAfterStop(m, rest);
      TwoSteps(s, WAKE, FinishStop, Next(m, FinishStop));
      m := Next(m, FinishStop);
    } else {
      UnbindsAtOnce(s, rest);
      OneStep(s, WAKE);
      assert [WAKE] + [] == [WAKE];
    }
  }

  /** The steps after the cooldown, by how the two halves of the EN pulse go. */
  function PulseSteps(cfg: Config, low: Outcome, high: Outcome): seq<Step> {
    if cfg.gpioEn.None? || low != Works then [RescueStep(0, Works, low)]
    else if high != Works then [RescueStep(0, Works, low), RescueStep(0, Works, high)]
    else [RescueStep(0, Works, low), RescueStep(0, Works, high)] + [WAKE]
  }

  /** Once BOOT is driven, USB is rebound, however the EN pulse goes. */
  lemma PulseRebinds(s: Slot, low: Outcome, high: Outcome) returns (t: Slot)
    requires At(s, GpioCooldown)
    ensures Leads(s, PulseSteps(s.cfg, low, high), t) && t.cfg == s.cfg && At(t, GpioRebound)
    ensures t.care.usb == Rebound && t.care.rebinds == s.care.rebinds + 1 && !t.care.freed
  {
    var m := Next(s, RescueStep(0, Works, low));
    if s.cfg.gpioEn.None? || low != Works {
      OneStep(s, RescueStep(0, Works, low));
      t := m;
    } else {
      t := Next(m, RescueStep(0, Works, high));
      TwoSteps(s, RescueStep(0, Works, low), RescueStep(0, Works, high), t);
      if high == Works {
        OneStep(t, WAKE);
        LeadsThrough(s, [RescueStep(0, Works, low), RescueStep(0, Works, high)], t, [WAKE], Next(t, WAKE));
        t := Next(t, WAKE);
      }
    }
  }

  /** Then the slot enters download mode. */
  lemma ReboundEnters(s: Slot)
    requires At(s, GpioRebound)
    ensures Enabled(s, WAKE)
    ensures var t := Next(s, WAKE);
            && t.dev.phase == DownloadMode && !t.flap.flapping && !t.care.recovering && t.care.rescues == []
            && t.care.retries == 0 && t.care.usb == s.care.usb && t.care.rebinds == s.care.rebinds
            && t.care.freed == s.care.freed && t.proxy == s.proxy
  {
  }

  /**
   * On a slot with a BOOT pin a recovery that meets nobody and can drive BOOT ends in download mode: USB was
   * unbound and is rebound once, the proxy is down, and flag and counter are cleared, however the EN pulse goes.
   */
  lemma RecoveryReachesDownloadMode(s: Slot, rest: Option<Rest>, low: Outcome, high: Outcome) returns (t: Slot)
    requires Reachable(s) && s.care.rescues == [Dispatch(rest)] && s.proxy.lock == Free
    requires s.cfg.usbDevice.Some? && s.cfg.gpioBoot.Some?
    ensures Leads(s, DispatchSteps(s) + (PulseSteps(s.cfg, low, high) + [WAKE]), t)
    ensures t.dev.phase == DownloadMode && !t.flap.flapping && !t.care.recovering && t.care.rescues == []
    ensures t.care.retries == 0 && t.care.usb == Rebound && t.care.rebinds == s.care.rebinds + 1 && !t.care.freed
    ensures !t.proxy.running && t.proxy.live == {}
  {
    var m := DispatchUnbinds(s, rest);
    var r := PulseRebinds(m, low, high);
    ReboundEnters(r);
    t := Next(r, WAKE);
    OneStep(r, WAKE);
    LeadsThrough(m, PulseSteps(s.cfg, low, high), r, [WAKE], t);
    LeadsThrough(s, DispatchSteps(s), m, PulseSteps(s.cfg, low, high) + [WAKE], t);
  }

  function CooldownSteps(until: real): seq<Step> { [WAKE] + [Tick(until), WAKE] }

  /** Idle and calm at `now`, with an empty window, after `retries` attempts and `rebinds` rebinds. */
  predicate Recovered(t: Slot, now: real, retries: nat, rebinds: nat) {
    && t.dev.phase == Idle && t.flap == Flap(false, [], [], now)
    && !t.care.recovering && t.care.rescues == [] && t.care.retries == retries
    && t.care.usb == Rebound && t.care.rebinds == rebinds
    && !t.proxy.running && t.proxy.live == {}
  }

  lemma SleepsUntil(s: Slot, retry: nat, until: real)
    requires At(s, NoGpioCooldown(retry, s.flap.clock)) && until == s.flap.clock + FLAP_COOLDOWN_S
    ensures Enabled(s, Tick(until)) && Enabled(Next(s, Tick(until)), WAKE)
    ensures Recovered(Next(Next(s, Tick(until)), WAKE), until, retry + 1, s.care.rebinds + 1)
  {
  }

  /** The thread without GPIO, with a retry left: read the counter, sleep for the cooldown, and rebind. */
  lemma CooldownRebinds(s: Slot, until: real) returns (t: Slot)
    requires At(s, NoGpioReady) && s.care.retries < FLAP_MAX_RETRIES && until == s.flap.clock + FLAP_COOLDOWN_S
    ensures Leads(s, CooldownSteps(until), t) && Recovered(t, until, s.care.retries + 1, s.care.rebinds + 1)
  {
    var m := Next(s, WAKE);
    assert At(m, NoGpioCooldown(s.care.retries, m.flap.clock));
    SleepsUntil(m, s.care.retries, until);
    t := Next(Next(m, Tick(until)), WAKE);
    TwoSteps(m, Tick(until), WAKE, t);
    LeadsFrom(s, WAKE, [Tick(until), WAKE], t);
  }

  /**
   * On a slot without one a recovery with a retry left that meets nobody ends idle after the cooldown: USB was
   * unbound and is rebound once, the proxy is down, the window empty and the counter one higher.
   */
  lemma RecoveryCoolsDown(s: Slot, rest: Option<Rest>, until: real) returns (t: Slot)
    requires Reachable(s) && s.care.rescues == [Dispatch(rest)] && s.proxy.lock == Free
    requires s.cfg.usbDevice.Some? && s.cfg.gpioBoot.None? && s.care.retries < FLAP_MAX_RETRIES
    requires until == s.flap.clock + FLAP_COOLDOWN_S
    ensures Leads(s, DispatchSteps(s) + CooldownSteps(until), t)
    ensures Recovered(t, until, s.care.retries + 1, s.care.rebinds + 1)
  {
    var m := DispatchUnbinds(s, rest);
    t := CooldownRebinds(m, until);
    LeadsThrough(s, DispatchSteps(s), m, CooldownSteps(until), t);
  }
}
