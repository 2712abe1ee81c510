/**
 * What every run of a slot keeps: recoveries come one at a time and are bounded, USB is left
 * unbound by two endings only, no proxy process leaks, and storms start few proxies.
 */
module SlotTheorems {
  import opened Common
  import opened FlapWindow
  import opened Gpio
  import opened SlotModel

  // ---- one recovery at a time -------------------------------------------------------

  predicate StoppingForRecovery(s: Slot) { s.proxy.lock.Stopping? && s.proxy.lock.why.ForRecovery? }

  /** Recoveries under way: threads, and a dispatcher that is stopping the proxy under the lock. */
  function InFlight(s: Slot): nat { |s.care.rescues| + if StoppingForRecovery(s) then 1 else 0 }

  ghost predicate OneRecovery(s: Slot) {
    && InFlight(s) == (if s.care.recovering then 1 else 0)
    && (s.care.recovering ==> s.flap.flapping)
    && (s.flap.flapping ==> s.dev.phase != DownloadMode)
  }

  /** The steps of the lock's owner, and of those who take it. */
  predicate LockStep(step: Step) {
    || step.Acquire? || step.FinishStop? || step.Launch? || step.LaunchFails? || step.StartRecorded?
    || step.StartAbandoned? || step.ApiStart? || step.ApiStop? || step.BootScan?
  }

  lemma OneRecoveryAfterStop(s: Slot)
    requires OneRecovery(s) && Enabled(s, FinishStop)
    ensures OneRecovery(Next(s, FinishStop))
  {
  }

  lemma OneRecoveryAfterStart(s: Slot, step: Step)
    requires OneRecovery(s) && Enabled(s, step)
    requires step.Launch? || step.LaunchFails? || step.StartRecorded? || step.StartAbandoned?
    ensures OneRecovery(Next(s, step))
  {
  }

  lemma OneRecoveryTakesLock(s: Slot, step: Step)
    requires OneRecovery(s) && Enabled(s, step)
    requires step.Acquire? || step.ApiStart? || step.ApiStop? || step.BootScan?
    ensures OneRecovery(Next(s, step))
  {
    assert InFlight(Next(s, step)) == |Next(s, step).care.rescues|;
  }

  lemma OneRecoveryUnderLock(s: Slot, step: Step)
    requires OneRecovery(s) && Enabled(s, step) && LockStep(step)
    ensures OneRecovery(Next(s, step))
  {
    if step.FinishStop? {
      OneRecoveryAfterStop(s);
    } else if s.proxy.lock == Free {
      OneRecoveryTakesLock(s, step);
    } else {
      OneRecoveryAfterStart(s, step);
    }
  }

  lemma OneRecoveryKept(s: Slot, step: Step)
    requires OneRecovery(s) && Enabled(s, step)
    ensures OneRecovery(Next(s, step))
  {
    if LockStep(step) {
      OneRecoveryUnderLock(s, step);
    } else if step.RescueStep? {
      OneRecoveryAdvances(s, step.i, step.boot, step.en);
    }
  }

  lemma OneRecoveryAdvances(s: Slot, i: nat, boot: Outcome, en: Outcome)
    requires OneRecovery(s) && Enabled(s, RescueStep(i, boot, en))
    ensures OneRecovery(AdvanceRescue(s, i, boot, en))
  {
  }

  // ---- the recovery state on its own ------------------------------------------------

  predicate Storms(s: Slot, step: Step) {
    && step.Hotplug? && !s.care.recovering
    && var flap := NoteEvent(s.flap, step.now);
       !flap.flapping && |flap.eventTimes| >= FLAP_THRESHOLD
  }

  /** What a step does to the recovery state, told without the rest of the slot. */
  function CareAfter(s: Slot, step: Step): Care
    requires Enabled(s, step)
  {
    var c := s.care;
    match step
    case Hotplug(action, devnode, _, _) =>
      if Storms(s, step) then StartRescue(c, Some(Rest(action, devnode))) else c
    case Recover =>
      var armed := c.(retries := 0, recoverCalls := c.recoverCalls + 1);
      if c.recovering then armed else StartRescue(armed, None)
    case Release(boot, en) =>
      if !MayRelease(s) then c
      else if boot != Works || (s.cfg.gpioEn.Some? && en == Works) then c.(freed := true)
      else c.(freed := true, retries := 0)
    case JobStep(i, _, _) => if s.jobs[i].ReleaseTail? then c.(retries := 0) else c
    case RescueStep(i, boot, en) =>
      if !c.rescues[i].Dispatch? then AdvanceCare(s.cfg, c, i, boot, en, s.flap.clock)
      else if Recorded(s.proxy) then Leave(c, i)
      else Unbind(s.cfg, Leave(c, i))
    case FinishStop => if s.proxy.lock.why.ForRecovery? then Unbind(s.cfg, c) else c
    case _ => c
  }

  lemma CareUnderLock(s: Slot, step: Step)
    requires Enabled(s, step) && LockStep(step)
    ensures Next(s, step).care == CareAfter(s, step)
  {
  }

  lemma CareOfHotplug(s: Slot, step: Step)
    requires Enabled(s, step) && step.Hotplug?
    ensures Next(s, step).care == CareAfter(s, step)
  {
  }

  lemma CareOfRescue(s: Slot, step: Step)
    requires Enabled(s, step) && step.RescueStep?
    ensures Next(s, step).care == CareAfter(s, step)
  {
  }

  lemma CareIsAfter(s: Slot, step: Step)
    requires Enabled(s, step)
    ensures Next(s, step).care == CareAfter(s, step)
  {
    if LockStep(step) {
      CareUnderLock(s, step);
    } else if step.Hotplug? {
      CareOfHotplug(s, step);
    } else if step.RescueStep? {
      CareOfRescue(s, step);
    }
  }

  // ---- USB is left unbound by two endings only --------------------------------------

  predicate WithGpio(r: Rescue) { r.GpioCooldown? || r.GpioEnLow? || r.GpioEnHigh? || r.GpioRebound? }

  predicate LeavesUnbound(e: Ending) { e == RetriesExhausted || e == BootDriveFailed }

  ghost predicate UsbPairing(cfg: Config, c: Care) {
    && (cfg.usbDevice.None? ==> c.usb != Unbound)
    && (forall r :: r in c.rescues && !r.Dispatch? ==>
          && cfg.usbDevice.Some?
          && (WithGpio(r) <==> cfg.gpioBoot.Some?)
          && c.usb == if r.GpioRebound? then Rebound else Unbound)
    && (|c.rescues| == 0 || c.rescues[0].Dispatch? ==> (c.usb == Unbound <==> LeavesUnbound(c.ending)))
  }

  lemma UsbPairingAdvances(cfg: Config, c: Care, boot: Outcome, en: Outcome, now: real)
    requires UsbPairing(cfg, c) && |c.rescues| == 1 && !c.rescues[0].Dispatch?
    ensures UsbPairing(cfg, AdvanceCare(cfg, c, 0, boot, en, now))
  {
    assert c.rescues[0] in c.rescues;
  }

  lemma UsbPairingKept(s: Slot, step: Step)
    requires OneRecovery(s) && UsbPairing(s.cfg, s.care) && Enabled(s, step)
    ensures UsbPairing(s.cfg, CareAfter(s, step))
  {
    if step.RescueStep? && !s.care.rescues[step.i].Dispatch? {
      UsbPairingAdvances(s.cfg, s.care, step.boot, step.en, s.flap.clock);
    }
  }

  // ---- recovery attempts are bounded ------------------------------------------------

  /** Rebinds still to come without another manual call: a sleeping thread counts from the value it read. */
  function Budget(c: Care): int {
    if |c.rescues| > 0 && c.rescues[0].NoGpioCooldown?
    then FLAP_MAX_RETRIES - c.rescues[0].retry
    else FLAP_MAX_RETRIES - c.retries
  }

  ghost predicate Bounded(cfg: Config, c: Care) {
    && c.retries <= FLAP_MAX_RETRIES
    && (forall r :: r in c.rescues && r.NoGpioCooldown? ==> r.retry < FLAP_MAX_RETRIES)
    && (cfg.gpioBoot.None? ==> c.rebinds + Budget(c) <= FLAP_MAX_RETRIES * (c.recoverCalls + 1))
  }

  lemma BoundedAdvances(cfg: Config, c: Care, boot: Outcome, en: Outcome, now: real)
    requires UsbPairing(cfg, c) && Bounded(cfg, c) && |c.rescues| == 1 && !c.rescues[0].Dispatch?
    ensures Bounded(cfg, AdvanceCare(cfg, c, 0, boot, en, now))
  {
    assert c.rescues[0] in c.rescues;
  }

  /** Only a slot with a BOOT pin has a release under way. */
  ghost predicate ReleaseNeedsBoot(s: Slot) { ReleaseTail in s.jobs ==> s.cfg.gpioBoot.Some? }

  lemma BoundedKept(s: Slot, step: Step)
    requires OneRecovery(s) && UsbPairing(s.cfg, s.care) && ReleaseNeedsBoot(s)
    requires Bounded(s.cfg, s.care) && Enabled(s, step)
    ensures Bounded(s.cfg, CareAfter(s, step))
  {
    if step.RescueStep? && !s.care.rescues[step.i].Dispatch? {
      BoundedAdvances(s.cfg, s.care, step.boot, step.en, s.flap.clock);
    }
  }

  lemma ReleaseUnderLock(s: Slot, step: Step)
    requires ReleaseNeedsBoot(s) && Enabled(s, step) && LockStep(step)
    ensures ReleaseNeedsBoot(Next(s, step))
  {
  }

  lemma ReleaseOfJob(s: Slot, step: Step)
    requires ReleaseNeedsBoot(s) && Enabled(s, step) && step.JobStep?
    ensures ReleaseNeedsBoot(Next(s, step))
  {
  }

  lemma ReleaseOfRescue(s: Slot, step: Step)
    requires ReleaseNeedsBoot(s) && Enabled(s, step) && step.RescueStep?
    ensures ReleaseNeedsBoot(Next(s, step))
  {
  }

  lemma ReleaseNeedsBootKept(s: Slot, step: Step)
    requires ReleaseNeedsBoot(s) && Enabled(s, step)
    ensures ReleaseNeedsBoot(Next(s, step))
  {
    if LockStep(step) {
      ReleaseUnderLock(s, step);
    } else if step.JobStep? {
      ReleaseOfJob(s, step);
    } else if step.RescueStep? {
      ReleaseOfRescue(s, step);
    }
  }

  // ---- no proxy leaks ---------------------------------------------------------------

  ghost predicate NoLeak(cfg: Config, p: Proxy) {
    && (p.running <==> p.pid.Some?)
    && p.live <= Elements(p.pid) + (if p.lock.Starting? then {p.lock.proc} else {})
    && (p.lock.Settling? || p.lock.Starting? ==> !p.running)
    && (p.lock.Stopping? && p.pid.Some? ==> p.pid == p.lock.victim)
    && (p.running ==> CanListen(cfg) && p.url == Some(Url(p.hostIp, cfg.tcpPort.value)))
  }

  lemma NoLeakUnderLock(s: Slot, step: Step)
    requires NoLeak(s.cfg, s.proxy) && Enabled(s, step) && LockStep(step)
    ensures NoLeak(s.cfg, Next(s, step).proxy)
  {
  }

  lemma NoLeakKept(s: Slot, step: Step)
    requires NoLeak(s.cfg, s.proxy) && Enabled(s, step)
    ensures NoLeak(s.cfg, Next(s, step).proxy)
  {
    if LockStep(step) {
      NoLeakUnderLock(s, step);
    }
  }

  // ---- the pruned window stands for the whole history -------------------------------

  ghost predicate SameFrom(a: seq<real>, b: seq<real>, from: real) {
    forall later :: from <= later ==> Recent(a, later) == Recent(b, later)
  }

  /** At most the first five accepted events of any window start a proxy. */
  ghost predicate StormBound(events: seq<Event>) {
    forall j, k :: 0 <= j < k < |events| && k - j == FLAP_THRESHOLD - 1 && events[k].starts ==>
      events[k].at - events[j].at >= FLAP_WINDOW_S
  }

  ghost predicate WindowFaithful(f: Flap) {
    && Ordered(Times(f.events))
    && (forall e :: e in f.events ==> e.at <= f.clock)
    && SameFrom(f.eventTimes, Times(f.events), f.clock)
    && StormBound(f.events)
  }

  /** A new event keeps the two lists alike, also after pruning. */
  lemma SameFromExtends(a: seq<real>, b: seq<real>, from: real, now: real)
    requires SameFrom(a, b, from) && from <= now
    ensures SameFrom(a + [now], b + [now], from)
    ensures SameFrom(Recent(a + [now], now), b + [now], now)
    ensures Recent(a + [now], now) == Recent(b + [now], now)
  {
    forall later | from <= later
      ensures Recent(a + [now], later) == Recent(b + [now], later)
    {
      assert Recent(a, later) == Recent(b, later);
      RecentAppendSame(a, b, now, later);
    }
    forall later | now <= later
      ensures Recent(Recent(a + [now], now), later) == Recent(b + [now], later)
    {
      PruningIsInvisible(a + [now], now, later);
    }
  }

  /** One more event, not marked, keeps the history ordered and the storm bound. */
  lemma EventsExtend(events: seq<Event>, clock: real, now: real)
    requires Ordered(Times(events)) && (forall e :: e in events ==> e.at <= clock) && StormBound(events)
    requires clock <= now
    ensures var more := events + [Event(now, false)];
            Times(more) == Times(events) + [now] && Ordered(Times(more)) && StormBound(more)
  {
    assert forall k :: 0 <= k < |events| ==> events[k] in events;
  }

  lemma NoteEventFaithful(f: Flap, now: real)
    requires WindowFaithful(f) && f.clock <= now
    ensures WindowFaithful(NoteEvent(f, now))
    ensures Times(NoteEvent(f, now).events) == Times(f.events) + [now]
    ensures NoteEvent(f, now).eventTimes == Recent(Times(f.events) + [now], now)
  {
    EventsExtend(f.events, f.clock, now);
    SameFromExtends(f.eventTimes, Times(f.events), f.clock, now);
  }

  lemma MarkStartFaithful(f: Flap)
    requires WindowFaithful(f) && f.events != [] && f.events[|f.events| - 1].at == f.clock
    requires |f.eventTimes| < FLAP_THRESHOLD && f.eventTimes == Recent(Times(f.events), f.clock)
    ensures WindowFaithful(f.(events := MarkStart(f.events)))
  {
    var marked := MarkStart(f.events);
    assert Times(marked) == Times(f.events);
    MarkStartBounded(f.events);
    forall e | e in marked ensures e.at <= f.clock {
      var k :| 0 <= k < |marked| && marked[k] == e;
      assert f.events[k] in f.events;
    }
  }

  lemma MarkStartBounded(events: seq<Event>)
    requires events != [] && Ordered(Times(events)) && StormBound(events)
    requires |Recent(Times(events), events[|events| - 1].at)| < FLAP_THRESHOLD
    ensures StormBound(MarkStart(events))
  {
    var k, now := |events| - 1, events[|events| - 1].at;
    if k >= FLAP_THRESHOLD - 1 && now - events[k - (FLAP_THRESHOLD - 1)].at < FLAP_WINDOW_S {
      WindowCounts(Times(events), now, FLAP_THRESHOLD);
    }
  }

  /** After an accepted event the lists are those with the event noted, and it may be marked as a start. */
  lemma HotplugLists(s: Slot, action: Action, devnode: string, seqNo: nat, now: real)
    requires !s.care.recovering
    ensures var f, n := NoteEvent(s.flap, now), HandleHotplug(s, action, devnode, seqNo, now).flap;
            && n.clock == f.clock && n.eventTimes == f.eventTimes
            && (n.events == f.events || (n.events == MarkStart(f.events) && |f.eventTimes| < FLAP_THRESHOLD))
  {
  }

  lemma ListsFaithful(f: Flap, n: Flap)
    requires WindowFaithful(f) && f.events != [] && f.events[|f.events| - 1].at == f.clock
    requires f.eventTimes == Recent(Times(f.events), f.clock)
    requires n.clock == f.clock && n.eventTimes == f.eventTimes
    requires n.events == f.events || (n.events == MarkStart(f.events) && |f.eventTimes| < FLAP_THRESHOLD)
    ensures WindowFaithful(n)
  {
    if n.events != f.events {
      MarkStartFaithful(f);
    }
  }

  lemma HotplugFaithful(s: Slot, action: Action, devnode: string, seqNo: nat, now: real)
    requires WindowFaithful(s.flap) && s.flap.clock <= now
    ensures WindowFaithful(HandleHotplug(s, action, devnode, seqNo, now).flap)
  {
    if s.care.recovering {
      PruneFaithful(s.flap, now);
    } else {
      var f := NoteEvent(s.flap, now);
      NoteEventFaithful(s.flap, now);
      HotplugLists(s, action, devnode, seqNo, now);
      ListsFaithful(f, HandleHotplug(s, action, devnode, seqNo, now).flap);
    }
  }

  lemma PruneFaithful(f: Flap, now: real)
    requires WindowFaithful(f) && f.clock <= now
    ensures WindowFaithful(f.(clock := now))
    ensures WindowFaithful(f.(clock := now, eventTimes := Recent(f.eventTimes, now)))
  {
    forall later | now <= later
      ensures Recent(Recent(f.eventTimes, now), later) == Recent(Times(f.events), later)
    {
      PruningIsInvisible(f.eventTimes, now, later);
    }
  }

  ghost predicate ListsStayOrClear(f: Flap, n: Flap) {
    && n.clock == f.clock
    && ((n.events == f.events && n.eventTimes == f.eventTimes) || (n.events == [] && n.eventTimes == []))
  }

  lemma QuietRescue(s: Slot, i: nat, boot: Outcome, en: Outcome)
    requires OneRecovery(s) && Enabled(s, RescueStep(i, boot, en))
    ensures ListsStayOrClear(s.flap, AdvanceRescue(s, i, boot, en).flap)
  {
  }

  lemma QuietStop(s: Slot)
    requires OneRecovery(s) && Enabled(s, FinishStop)
    ensures ListsStayOrClear(s.flap, Next(s, FinishStop).flap)
  {
  }

  lemma QuietRest(s: Slot, step: Step)
    requires Enabled(s, step) && !step.Hotplug? && !step.Poll? && !step.Tick? && !step.RescueStep? && !step.FinishStop?
    ensures ListsStayOrClear(s.flap, Next(s, step).flap)
  {
  }

  /** Outside hotplug events, polls and the passing of time the lists stay, or are cleared together. */
  lemma QuietFlap(s: Slot, step: Step)
    requires OneRecovery(s) && Enabled(s, step) && !step.Hotplug? && !step.Poll? && !step.Tick?
    ensures ListsStayOrClear(s.flap, Next(s, step).flap)
  {
    match step
    case RescueStep(i, boot, en) => QuietRescue(s, i, boot, en);
    case FinishStop => QuietStop(s);
    case _ => QuietRest(s, step);
  }

  lemma SameListsFaithful(f: Flap, n: Flap)
    requires WindowFaithful(f) && ListsStayOrClear(f, n)
    ensures WindowFaithful(n)
  {
  }

  lemma WindowFaithfulKept(s: Slot, step: Step)
    requires OneRecovery(s) && WindowFaithful(s.flap) && Enabled(s, step)
    ensures WindowFaithful(Next(s, step).flap)
  {
    match step
    case Hotplug(action, devnode, seqNo, now) => HotplugFaithful(s, action, devnode, seqNo, now);
    case Poll(now, _) => PruneFaithful(s.flap, now);
    case Tick(now) => PruneFaithful(s.flap, now);
    case _ =>
      QuietFlap(s, step);
      SameListsFaithful(s.flap, Next(s, step).flap);
  }

  // ---- manual calls are counted -----------------------------------------------------

  lemma ConfigKept(s: Slot, step: Step)
    requires Enabled(s, step)
    ensures Next(s, step).cfg == s.cfg
  {
  }

  lemma CareCounts(s: Slot, step: Step)
    requires Enabled(s, step)
    ensures CareAfter(s, step).recoverCalls == s.care.recoverCalls + if step.Recover? then 1 else 0
  {
  }

  lemma CountsOneStep(s: Slot, step: Step)
    requires Enabled(s, step)
    ensures Next(s, step).cfg == s.cfg
    ensures Next(s, step).care.recoverCalls == s.care.recoverCalls + if step.Recover? then 1 else 0
  {
    ConfigKept(s, step);
    CareIsAfter(s, step);
    CareCounts(s, step);
  }

  // ---- all of it, in every run ------------------------------------------------------

  ghost predicate Good(s: Slot) {
    && OneRecovery(s)
    && UsbPairing(s.cfg, s.care)
    && Bounded(s.cfg, s.care)
    && ReleaseNeedsBoot(s)
    && NoLeak(s.cfg, s.proxy)
    && WindowFaithful(s.flap)
  }

  lemma InitialIsGood(s: Slot)
    requires Initial(s)
    ensures Good(s)
  {
  }

  lemma GoodKept(s: Slot, step: Step)
    requires Good(s) && Enabled(s, step)
    ensures Good(Next(s, step))
  {
    CareIsAfter(s, step);
    CountsOneStep(s, step);
    OneRecoveryKept(s, step);
    UsbPairingKept(s, step);
    BoundedKept(s, step);
    ReleaseNeedsBootKept(s, step);
    NoLeakKept(s, step);
    WindowFaithfulKept(s, step);
  }

  lemma {:induction false} RunIsGood(states: seq<Slot>, steps: seq<Step>, k: nat)
    requires Run(states, steps) && k < |states|
    ensures Good(states[k])
  {
    if k == 0 {
      InitialIsGood(states[0]);
    } else {
      RunIsGood(states, steps, k - 1);
      GoodKept(states[k - 1], steps[k - 1]);
    }
  }

  lemma ReachableIsGood(s: Slot)
    requires Reachable(s)
    ensures Good(s)
  {
    var states, steps :| Run(states, steps) && s == states[|states| - 1];
    RunIsGood(states, steps, |states| - 1);
  }

  /** A run goes on with any enabled step. */
  lemma RunExtends(states: seq<Slot>, steps: seq<Step>, step: Step)
    requires Run(states, steps) && Enabled(states[|steps|], step)
    ensures Run(states + [Next(states[|steps|], step)], steps + [step])
  {
  }

  /** So what is proved of reachable slots stays true under every step. */
  lemma ReachableClosed(s: Slot, step: Step)
    requires Reachable(s) && Enabled(s, step)
    ensures Reachable(Next(s, step))
  {
    var states, steps :| Run(states, steps) && s == states[|states| - 1];
    RunExtends(states, steps, step);
    var more := states + [Next(s, step)];
    assert more[|more| - 1] == Next(s, step);
  }

  /** A slot as built, before `host_ip` is known to it. */
  function Fresh(cfg: Config): Slot {
    Slot(cfg, Device(false, None, Absent, 0, None, None), Flap(false, [], [], 0.0),
         Care(false, 0, [], Untouched, NoneYet, 0, 0, false), Proxy(false, None, None, "", Free, {}), [])
  }

  /** The only recovery thread goes on, and its GPIO calls work. */
  const WAKE := RescueStep(0, Works, Works)

  lemma InitialIsReachable(s: Slot)
    requires Initial(s)
    ensures Reachable(s)
  {
    var states, steps := [s], [];
    assert Run(states, steps) && states[|states| - 1] == s;
  }

  // ---- theorems ---------------------------------------------------------------------

  /** `_recovering` holds exactly when one recovery is in flight, and there is never a second one. */
  lemma RecoveringMeansOneInFlight(s: Slot)
    requires Reachable(s)
    ensures InFlight(s) <= 1
    ensures s.care.recovering <==> InFlight(s) == 1
  {
    ReachableIsGood(s);
  }

  /** USB stays unbound between recoveries exactly when the last one gave up or could not drive BOOT. */
  lemma UnboundOnlyAfterTwoEndings(s: Slot)
    requires Reachable(s) && !s.care.recovering
    ensures s.care.usb == Unbound <==> LeavesUnbound(s.care.ending)
  {
    ReachableIsGood(s);
  }

  predicate GivesUp(s: Slot, step: Step) {
    && step.RescueStep? && step.i < |s.care.rescues|
    && s.care.rescues[step.i].NoGpioReady? && s.care.retries >= FLAP_MAX_RETRIES
  }

  predicate CannotDriveBoot(s: Slot, step: Step) {
    && step.RescueStep? && step.i < |s.care.rescues|
    && s.care.rescues[step.i].GpioCooldown? && step.boot != Works
  }

  lemma EndingCare(s: Slot, step: Step)
    requires OneRecovery(s) && UsbPairing(s.cfg, s.care) && Enabled(s, step)
    requires s.care.recovering && !CareAfter(s, step).recovering
    ensures CareAfter(s, step).usb == Unbound <==> GivesUp(s, step) || CannotDriveBoot(s, step)
    ensures s.cfg.usbDevice.Some? && !GivesUp(s, step) && !CannotDriveBoot(s, step) ==>
              CareAfter(s, step).usb == Rebound
  {
    if step.RescueStep? {
      assert s.care.rescues[step.i] in s.care.rescues;
    }
  }

  /** The step that ends a recovery leaves USB unbound in exactly two cases. */
  lemma RecoveryEndsRebound(s: Slot, step: Step)
    requires Reachable(s) && Enabled(s, step)
    requires s.care.recovering && !Next(s, step).care.recovering
    ensures Next(s, step).care.usb == Unbound <==> GivesUp(s, step) || CannotDriveBoot(s, step)
    ensures s.cfg.usbDevice.Some? && !GivesUp(s, step) && !CannotDriveBoot(s, step) ==>
              Next(s, step).care.usb == Rebound
  {
    ReachableIsGood(s);
    CareIsAfter(s, step);
    EndingCare(s, step);
  }

  /** While a recovery runs, hotplug events are noted and otherwise ignored. */
  lemma HotplugIgnoredWhileRecovering(s: Slot, action: Action, devnode: string, seqNo: nat, now: real)
    requires Reachable(s) && InFlight(s) > 0
    ensures HandleHotplug(s, action, devnode, seqNo, now) ==
            s.(dev := s.dev.(seqNo := seqNo, lastAction := Some(action), lastEventTs := Some(now)),
               flap := s.flap.(clock := now))
  {
    ReachableIsGood(s);
  }

  function RecoverCalls(steps: seq<Step>): nat {
    if steps == [] then 0
    else RecoverCalls(steps[..|steps| - 1]) + if steps[|steps| - 1].Recover? then 1 else 0
  }

  lemma {:induction false} RecoverCallsCounted(states: seq<Slot>, steps: seq<Step>, k: nat)
    requires Run(states, steps) && k < |states|
    ensures states[k].care.recoverCalls == RecoverCalls(steps[..k]) && states[k].cfg == states[0].cfg
  {
    if k > 0 {
      RecoverCallsCounted(states, steps, k - 1);
      assert steps[..k][..k - 1] == steps[..k - 1];
      CountsOneStep(states[k - 1], steps[k - 1]);
    }
  }

  /** With k manual calls, a slot without a BOOT pin rebinds USB at most 2(k + 1) times. */
  lemma RecoveryAttemptsBounded(states: seq<Slot>, steps: seq<Step>)
    requires Run(states, steps) && states[0].cfg.gpioBoot.None?
    ensures var last := states[|states| - 1];
            && last.care.rebinds <= FLAP_MAX_RETRIES * (RecoverCalls(steps) + 1)
            && 0 <= last.care.retries <= FLAP_MAX_RETRIES
  {
    RunIsGood(states, steps, |states| - 1);
    RecoverCallsCounted(states, steps, |states| - 1);
    assert steps[..|steps|] == steps;
  }

  /** At most one proxy is alive, and one that is not on record belongs to the start that holds the lock. */
  lemma NoProxyLeaks(s: Slot, p: Pid, q: Pid)
    requires Reachable(s)
    ensures p in s.proxy.live && q in s.proxy.live ==> p == q
    ensures p in s.proxy.live && s.proxy.pid != Some(p) ==> s.proxy.lock.Starting? && s.proxy.lock.proc == p
    ensures s.proxy.running <==> s.proxy.pid.Some?
    ensures s.proxy.running ==>
              CanListen(s.cfg) && s.proxy.url == Some(Url(s.proxy.hostIp, s.cfg.tcpPort.value))
  {
    ReachableIsGood(s);
  }

  /** What the run accepted since the window was last cleared, told from the steps alone. */
  ghost function Accepted(states: seq<Slot>, steps: seq<Step>): seq<real>
    requires Run(states, steps)
    decreases |steps|
  {
    if steps == [] then []
    else
      var n := |steps| - 1;
      var s, step, before := states[n], steps[n], Accepted(states[..n + 1], steps[..n]);
      if step.Hotplug? && !s.care.recovering then before + [step.now]
      else if step.RescueStep? && s.care.rescues[step.i].NoGpioCooldown? then []
      else before
  }

  lemma EventsGrowByAcceptedOnes(s: Slot, step: Step)
    requires Good(s) && Enabled(s, step)
    ensures Times(Next(s, step).flap.events) ==
            if step.Hotplug? && !s.care.recovering then Times(s.flap.events) + [step.now]
            else if step.RescueStep? && s.care.rescues[step.i].NoGpioCooldown? then []
            else Times(s.flap.events)
  {
    if step.Hotplug? && !s.care.recovering {
      var events := s.flap.events + [Event(step.now, false)];
      assert Times(events) == Times(s.flap.events) + [step.now];
      assert Times(MarkStart(events)) == Times(events);
    }
  }

  lemma RunPrefix(states: seq<Slot>, steps: seq<Step>, n: nat)
    requires Run(states, steps) && n <= |steps|
    ensures Run(states[..n + 1], steps[..n]) && states[..n + 1][n] == states[n]
  {
  }

  lemma {:induction false} EventsAreHistory(states: seq<Slot>, steps: seq<Step>)
    requires Run(states, steps)
    ensures Times(states[|states| - 1].flap.events) == Accepted(states, steps)
    decreases |steps|
  {
    if steps != [] {
      var n := |steps| - 1;
      RunPrefix(states, steps, n);
      EventsAreHistory(states[..n + 1], steps[..n]);
      RunIsGood(states, steps, n);
      EventsGrowByAcceptedOnes(states[n], steps[n]);
    }
  }

  /** Pruning never shows: the window at any later time is that of everything accepted since the clear. */
  lemma WindowRefinesHistory(states: seq<Slot>, steps: seq<Step>, later: real)
    requires Run(states, steps) && states[|states| - 1].flap.clock <= later
    ensures Recent(states[|states| - 1].flap.eventTimes, later) == Recent(Accepted(states, steps), later)
  {
    RunIsGood(states, steps, |states| - 1);
    EventsAreHistory(states, steps);
  }

  lemma FlagAfterEvent(s: Slot, action: Action, devnode: string, seqNo: nat, now: real)
    requires !s.care.recovering
    ensures HandleHotplug(s, action, devnode, seqNo, now).flap.flapping <==>
              || |NoteEvent(s.flap, now).eventTimes| >= FLAP_THRESHOLD
              || NoteEvent(s.flap, now).flapping
  {
  }

  /** After an event at `now` the flag says: six in the window, or flapping before and the last two close together. */
  ghost predicate FlagTells(before: bool, after: bool, times: seq<real>, now: real) {
    var w := Recent(times + [now], now);
    after <==> |w| >= FLAP_THRESHOLD || (before && |w| >= 2 && w[|w| - 1] - w[|w| - 2] < FLAP_COOLDOWN_S)
  }

  lemma FlagFromTimes(s: Slot, action: Action, devnode: string, seqNo: nat, now: real)
    requires WindowFaithful(s.flap) && s.flap.clock <= now && !s.care.recovering
    ensures FlagTells(s.flap.flapping, HandleHotplug(s, action, devnode, seqNo, now).flap.flapping,
                      Times(s.flap.events), now)
  {
    NoteEventFaithful(s.flap, now);
    FlagAfterEvent(s, action, devnode, seqNo, now);
  }

  lemma HistoryIsTold(states: seq<Slot>, steps: seq<Step>, s: Slot)
    requires Run(states, steps) && s == states[|states| - 1]
    ensures Good(s) && Times(s.flap.events) == Accepted(states, steps)
  {
    RunIsGood(states, steps, |states| - 1);
    EventsAreHistory(states, steps);
  }

  /** The flapping flag after an accepted event, told from the full history. */
  lemma FlappingExactly(states: seq<Slot>, steps: seq<Step>, action: Action, devnode: string, seqNo: nat, now: real)
    requires Run(states, steps)
    requires var s := states[|states| - 1]; s.flap.clock <= now && !s.care.recovering
    ensures var s := states[|states| - 1];
            FlagTells(s.flap.flapping, HandleHotplug(s, action, devnode, seqNo, now).flap.flapping,
                      Accepted(states, steps), now)
  {
    var s := states[|states| - 1];
    HistoryIsTold(states, steps, s);
    FlagFromTimes(s, action, devnode, seqNo, now);
  }

  /** A slot with no recovery under way and no accepted event for a window is not flapping after a poll. */
  lemma QuietSlotSettles(states: seq<Slot>, steps: seq<Step>, now: real, answers: bool)
    requires Run(states, steps)
    requires var s := states[|states| - 1]; Enabled(s, Poll(now, answers)) && !s.care.recovering
    requires forall i :: 0 <= i < |Accepted(states, steps)| ==> now - Accepted(states, steps)[i] >= FLAP_WINDOW_S
    ensures !Next(states[|states| - 1], Poll(now, answers)).flap.flapping
  {
    WindowRefinesHistory(states, steps, now);
    QuietWindowIsEmpty(Accepted(states, steps), now);
  }

  function StartsIn(events: seq<Event>): nat {
    if events == [] then 0
    else StartsIn(events[..|events| - 1]) + if events[|events| - 1].starts then 1 else 0
  }

  /** Only the first five events of a short stretch can be starts. */
  lemma {:induction false} StretchStarts(events: seq<Event>, lo: nat, hi: nat)
    requires Ordered(Times(events)) && StormBound(events)
    requires lo <= hi <= |events|
    requires lo < hi ==> events[hi - 1].at - events[lo].at < FLAP_WINDOW_S
    ensures StartsIn(events[lo..hi]) <= if hi - lo < FLAP_THRESHOLD then hi - lo else FLAP_THRESHOLD - 1
  {
    if lo < hi {
      assert events[lo..hi][..hi - lo - 1] == events[lo..hi - 1];
      assert Times(events)[lo] == events[lo].at;
      if lo < hi - 1 {
        assert Times(events)[hi - 2] <= Times(events)[hi - 1];
      }
      StretchStarts(events, lo, hi - 1);
      if hi - lo >= FLAP_THRESHOLD {
        assert Times(events)[lo] <= Times(events)[hi - 1 - (FLAP_THRESHOLD - 1)];
      }
    }
  }

  /** Among the events since the last clear, those of a stretch shorter than the window schedule at most five starts. */
  lemma StormStartsFewProxies(s: Slot, lo: nat, hi: nat)
    requires Reachable(s) && lo < hi <= |s.flap.events|
    requires s.flap.events[hi - 1].at - s.flap.events[lo].at < FLAP_WINDOW_S
    ensures StartsIn(s.flap.events[lo..hi]) < FLAP_THRESHOLD
  {
    ReachableIsGood(s);
    StretchStarts(s.flap.events, lo, hi);
  }

  /** A step that starts a background-start thread; new threads join at the end of the list. */
  predicate Schedules(s: Slot, step: Step)
    requires Enabled(s, step)
  {
    var jobs := Next(s, step).jobs;
    |jobs| > |s.jobs| && jobs[|s.jobs|] == BgStart
  }

  lemma OnlyHotplugSchedules(s: Slot, step: Step)
    requires Good(s) && Enabled(s, step) && !step.Hotplug?
    ensures !Schedules(s, step)
  {
  }

  /** The marks tell the truth: a background start appears exactly when the accepted event is marked. */
  lemma StartsAreMarked(s: Slot, step: Step)
    requires Reachable(s) && Enabled(s, step)
    ensures var events := Next(s, step).flap.events;
            Schedules(s, step) <==>
              && step.Hotplug? && !s.care.recovering
              && events != [] && events[|events| - 1] == Event(step.now, true)
  {
    ReachableIsGood(s);
    if !step.Hotplug? {
      OnlyHotplugSchedules(s, step);
    }
  }
}
