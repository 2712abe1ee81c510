/**
 * What a slot does for its user, told from the steps and the states around them: which events schedule
 * a start or a stop and what they say about the device, that a scheduled start or stop does its work, what a
 * poll reports, and how recoveries, resets, monitors and releases end.
 */
module SlotService {
  import opened Common
  import opened FlapWindow
  import opened Gpio
  import opened SlotModel
  import opened SlotTheorems

  // ---- which events schedule what ---------------------------------------------------

  /** A hotplug event outside recovery that raises no alarm. */
  predicate Passes(s: Slot, step: Step)
    requires Enabled(s, step)
  {
    step.Hotplug? && !s.care.recovering && !Next(s, step).care.recovering
  }

  /** A step that starts a background-stop thread. */
  predicate SchedulesStop(s: Slot, step: Step)
    requires Enabled(s, step)
  {
    var jobs := Next(s, step).jobs;
    |jobs| > |s.jobs| && jobs[|s.jobs|] == BgStop
  }

  lemma OthersScheduleNeither(s: Slot, step: Step)
    requires Good(s) && Enabled(s, step) && !step.Hotplug? && !LockStep(step)
    ensures !SchedulesStop(s, step)
  {
  }

  lemma LockSchedulesNeither(s: Slot, step: Step)
    requires Good(s) && Enabled(s, step) && LockStep(step)
    ensures !SchedulesStop(s, step)
  {
  }

  /** What one event schedules. */
  lemma HotplugSchedules(s: Slot, step: Step)
    requires Good(s) && Enabled(s, step) && step.Hotplug?
    ensures Schedules(s, step) <==>
              Passes(s, step) && step.action.Add? && !Next(s, step).flap.flapping && s.cfg.tcpPort.Some?
    ensures SchedulesStop(s, step) <==>
              Passes(s, step) && step.action.Remove? && s.cfg.tcpPort.Some? && s.proxy.running
  {
  }

  lemma HotplugJobs(s: Slot, step: Step)
    requires Enabled(s, step) && step.Hotplug?
    ensures Next(s, step).jobs == s.jobs + (if Schedules(s, step) then [BgStart]
                                            else if SchedulesStop(s, step) then [BgStop] else [])
  {
    assert s.jobs + [] == s.jobs;
  }

  /**
   * A step schedules a background start exactly when it is an "add" outside recovery that leaves a configured
   * slot not flapping, and a background stop exactly when it is a "remove" outside recovery that raises no alarm,
   * on a configured slot with a running proxy. A hotplug event schedules nothing else.
   */
  lemma SchedulesExactly(s: Slot, step: Step)
    requires Reachable(s) && Enabled(s, step)
    ensures Schedules(s, step) <==>
              Passes(s, step) && step.action.Add? && !Next(s, step).flap.flapping && s.cfg.tcpPort.Some?
    ensures SchedulesStop(s, step) <==>
              Passes(s, step) && step.action.Remove? && s.cfg.tcpPort.Some? && s.proxy.running
    ensures step.Hotplug? ==>
              Next(s, step).jobs == s.jobs + (if Schedules(s, step) then [BgStart]
                                              else if SchedulesStop(s, step) then [BgStop] else [])
  {
    ReachableIsGood(s);
    if step.Hotplug? {
      HotplugSchedules(s, step);
      HotplugJobs(s, step);
    } else {
      OnlyHotplugSchedules(s, step);
      if LockStep(step) {
        LockSchedulesNeither(s, step);
      } else {
        OthersScheduleNeither(s, step);
      }
    }
  }

  // ---- what events say about the device ---------------------------------------------

  /** The event whose handler ends with this step: at once, or after the recovery it started was dispatched. */
  function Handled(s: Slot, step: Step): Option<Rest>
    requires Enabled(s, step)
  {
    match step
    case Hotplug(action, devnode, _, _) => if Passes(s, step) then Some(Rest(action, devnode)) else None
    case RescueStep(i, _, _) =>
      if s.care.rescues[i].Dispatch? && !s.proxy.running then s.care.rescues[i].rest else None
    case FinishStop => if s.proxy.lock.why.ForRecovery? then s.proxy.lock.why.rest else None
    case _ => None
  }

  /** The device node that an operator's start or the boot scan names, when it gets to it. */
  function Named(s: Slot, step: Step): Option<string>
    requires Enabled(s, step)
  {
    match step
    case ApiStart(devnode) => if s.proxy.running then None else Some(devnode)
    case FinishStop =>
      var why := s.proxy.lock.why;
      if why.ForStart? && why.who.ByApi? then Some(why.who.devnode) else None
    case BootScan(devnode) => Some(devnode)
    case _ => None
  }

  /** Presence, device node and phase after a step that ends the handling of an event or names a device. */
  predicate PlugTold(s: Slot, n: Slot, event: Option<Rest>, named: Option<string>) {
    if event.Some? && event.value.action.Add? then
      && n.dev.present && n.dev.devnode == Some(event.value.devnode)
      && (!n.flap.flapping ==> n.dev.phase == Idle)
    else if event.Some? && event.value.action.Remove? then
      && !n.dev.present && n.dev.devnode == s.dev.devnode
      && (!n.flap.flapping ==> n.dev.phase == Absent)
    else if named.Some? then n.dev.present && n.dev.devnode == named
    else n.dev.present == s.dev.present && n.dev.devnode == s.dev.devnode
  }

  lemma PlugUnderLock(s: Slot, step: Step)
    requires Good(s) && Enabled(s, step) && LockStep(step)
    ensures PlugTold(s, Next(s, step), Handled(s, step), Named(s, step))
  {
  }

  lemma PlugElsewhere(s: Slot, step: Step)
    requires Good(s) && Enabled(s, step) && !LockStep(step)
    ensures PlugTold(s, Next(s, step), Handled(s, step), Named(s, step))
  {
  }

  /**
   * A slot is present after an "add" whose handling ends and absent after such a "remove", with the phase
   * to match unless it flaps; an operator's start and the boot scan make it present; nothing else changes it.
   */
  lemma PlugStateExactly(s: Slot, step: Step)
    requires Reachable(s) && Enabled(s, step)
    ensures PlugTold(s, Next(s, step), Handled(s, step), Named(s, step))
  {
    ReachableIsGood(s);
    if LockStep(step) {
      PlugUnderLock(s, step);
    } else {
      PlugElsewhere(s, step);
    }
  }

  /** The phase after an event: recovering after an alarm, kept while the slot flaps, else as the event says. */
  function PhaseTold(s: Slot, action: Action, recovering: bool, flapping: bool): Phase {
    if s.care.recovering || (flapping && !recovering) then s.dev.phase
    else if recovering then Recovering
    else if action.Add? then Idle
    else if action.Remove? then Absent
    else if s.flap.flapping then (if s.dev.present then Idle else Absent)
    else s.dev.phase
  }

  /** Every event, accepted or not, leaves its number, action and time, and the phase that follows from it. */
  lemma EventTold(s: Slot, action: Action, devnode: string, seqNo: nat, now: real)
    requires Reachable(s) && s.flap.clock <= now
    ensures var n := Next(s, Hotplug(action, devnode, seqNo, now));
            && n.dev.seqNo == seqNo && n.dev.lastAction == Some(action) && n.dev.lastEventTs == Some(now)
            && n.dev.phase == PhaseTold(s, action, n.care.recovering, n.flap.flapping) && n.flap.clock == now
  {
    ReachableIsGood(s);
  }

  // ---- what a poll does -------------------------------------------------------------

  /** The flag is stale: no recovery runs and fewer than six accepted events lie in the window. */
  predicate Stale(s: Slot, now: real) {
    s.flap.flapping && !s.care.recovering && |Recent(Times(s.flap.events), now)| < FLAP_THRESHOLD
  }

  /**
   * A poll strikes off a recorded proxy that does not answer and calls off a stale flapping state, told from
   * the full history; either sends the phase home, and nothing else changes it.
   */
  lemma PollExactly(s: Slot, now: real, answers: bool)
    requires Reachable(s) && Enabled(s, Poll(now, answers))
    ensures var n, struck := Next(s, Poll(now, answers)), s.proxy.running && !answers;
            && (n.proxy.running <==> s.proxy.running && answers)
            && n.proxy.live == s.proxy.live && n.proxy.lock == s.proxy.lock
            && (n.flap.flapping <==> s.flap.flapping && !Stale(s, now))
            && n.dev.phase == (if struck || Stale(s, now) then (if s.dev.present then Idle else Absent)
                               else s.dev.phase)
            && n.jobs == s.jobs && n.care == s.care && n.flap.clock == now
  {
    ReachableIsGood(s);
  }

  /** So a slot in download mode stays there under polls, unless its recorded proxy has died. */
  lemma PollKeepsDownloadMode(s: Slot, now: real, answers: bool)
    requires Reachable(s) && Enabled(s, Poll(now, answers))
    requires s.dev.phase == DownloadMode && (s.proxy.running ==> answers)
    ensures !s.flap.flapping && !s.care.recovering
    ensures Next(s, Poll(now, answers)).dev == s.dev
  {
    ReachableIsGood(s);
  }

  // ---- uninterrupted runs -----------------------------------------------------------

  /** The steps can be made one after the other from `s`, and end in `t`. */
  predicate Leads(s: Slot, steps: seq<Step>, t: Slot)
    decreases |steps|
  {
    if steps == [] then t == s else Enabled(s, steps[0]) && Leads(Next(s, steps[0]), steps[1..], t)
  }

  lemma {:induction false} LeadsFrom(s: Slot, step: Step, steps: seq<Step>, t: Slot)
    requires Enabled(s, step) && Leads(Next(s, step), steps, t)
    ensures Leads(s, [step] + steps, t)
  {
    assert ([step] + steps)[1..] == steps;
  }

  lemma {:induction false} LeadsThrough(s: Slot, steps: seq<Step>, m: Slot, more: seq<Step>, t: Slot)
    requires Leads(s, steps, m) && Leads(m, more, t)
    ensures Leads(s, steps + more, t)
    decreases |steps|
  {
    if steps == [] {
      assert steps + more == more;
    } else {
      LeadsThrough(Next(s, steps[0]), steps[1..], m, more, t);
      assert (steps + more)[1..] == steps[1..] + more;
    }
  }

  lemma {:induction false} LeadsReachable(s: Slot, steps: seq<Step>, t: Slot)
    requires Reachable(s) && Leads(s, steps, t)
    ensures Reachable(t)
    decreases |steps|
  {
    if steps != [] {
      ReachableClosed(s, steps[0]);
      LeadsReachable(Next(s, steps[0]), steps[1..], t);
    }
  }

  lemma OneStep(s: Slot, step: Step)
    requires Enabled(s, step)
    ensures Leads(s, [step], Next(s, step))
  {
    LeadsFrom(s, step, [], Next(s, step));
    assert [step] + [] == [step];
  }

  lemma TwoSteps(s: Slot, a: Step, b: Step, t: Slot)
    requires Enabled(s, a) && Enabled(Next(s, a), b) && t == Next(Next(s, a), b)
    ensures Leads(s, [a, b], t)
  {
    OneStep(Next(s, a), b);
    LeadsFrom(s, a, [b], t);
    assert [a] + [b] == [a, b];
  }

  // ---- stops ------------------------------------------------------------------------

  /** No proxy is on record and none is alive. */
  predicate Silent(p: Proxy) { !p.running && p.pid == None && p.url == None && p.live == {} }

  /** Whatever came in between, a stop that has the lock ends with the recorded proxy dead and no other alive. */
  lemma StopSilences(s: Slot)
    requires Reachable(s) && s.proxy.lock.Stopping?
    ensures Enabled(s, FinishStop) && Silent(Next(s, FinishStop).proxy)
  {
    ReachableIsGood(s);
    StopSilencesGood(s);
  }

  lemma StopSilencesGood(s: Slot)
    requires Good(s) && s.proxy.lock.Stopping?
    ensures Enabled(s, FinishStop) && Silent(Next(s, FinishStop).proxy)
  {
  }

  /** A scheduled stop that meets nobody: the proxy is dead, the thread gone, and nothing else has changed. */
  lemma BgStopStops(s: Slot, i: nat) returns (t: Slot)
    requires Reachable(s) && s.proxy.lock == Free && i < |s.jobs| && s.jobs[i] == BgStop
    ensures Leads(s, [Acquire(i), FinishStop], t)
    ensures Silent(t.proxy) && t.proxy.lock == Free && (s.proxy.pid.Some? ==> s.proxy.pid.value !in t.proxy.live)
    ensures t.jobs == Without(s.jobs, i) && t.dev == s.dev && t.flap == s.flap && t.care == s.care
  {
    ReachableClosed(s, Acquire(i));
    var m := Next(s, Acquire(i));
    StopSilences(m);
    t := Next(m, FinishStop);
    TwoSteps(s, Acquire(i), FinishStop, t);
  }

  /** The operator's stop likewise, and the phase goes home. */
  lemma ApiStopStops(s: Slot) returns (t: Slot)
    requires Reachable(s) && s.proxy.lock == Free
    ensures Leads(s, [ApiStop, FinishStop], t)
    ensures Silent(t.proxy) && t.proxy.lock == Free && t.jobs == s.jobs && t.flap == s.flap && t.care == s.care
    ensures t.dev == s.dev.(phase := if s.dev.present then Idle else Absent)
  {
    ReachableClosed(s, ApiStop);
    var m := Next(s, ApiStop);
    StopSilences(m);
    t := Next(m, FinishStop);
    TwoSteps(s, ApiStop, FinishStop, t);
  }

  // ---- starts -----------------------------------------------------------------------

  /** Proxy `p` serves the slot: it is alive, alone and on record, under the slot's URL, and nobody holds the lock. */
  predicate Serves(s: Slot, p: Pid) {
    && s.proxy.running && s.proxy.pid == Some(p) && s.proxy.live == {p} && s.proxy.lock == Free
    && CanListen(s.cfg) && s.proxy.url == Some(Url(s.proxy.hostIp, s.cfg.tcpPort.value))
    && s.dev.phase == Idle
  }

  /** A start that holds the lock: if its proxy answers on the port, that proxy serves the slot. */
  lemma StartServes(s: Slot)
    requires Reachable(s) && s.proxy.lock.Starting? && CanListen(s.cfg)
    ensures Enabled(s, StartRecorded)
    ensures var p, n := s.proxy.lock.proc, Next(s, StartRecorded);
            n.proxy.running && n.proxy.pid == Some(p) && (p in s.proxy.live ==> Serves(n, p))
  {
    ReachableIsGood(s);
    StartServesGood(s);
  }

  lemma StartServesGood(s: Slot)
    requires Good(s) && s.proxy.lock.Starting? && CanListen(s.cfg)
    ensures Enabled(s, StartRecorded)
    ensures var p, n := s.proxy.lock.proc, Next(s, StartRecorded);
            n.proxy.running && n.proxy.pid == Some(p) && (p in s.proxy.live ==> Serves(n, p))
  {
  }

  /** The phase a failed start leaves behind. */
  function PhaseAfterFailure(d: Device, who: Launcher): Phase {
    if who.ByApi? && d.phase != Flapping then Idle
    else if who.ByReset? && d.phase == Resetting then (if d.present then Idle else Absent)
    else d.phase
  }

  /** A start that fails, before or after its process was launched, leaves no process behind. */
  lemma FailedStartLeavesNothing(s: Slot, step: Step)
    requires Reachable(s) && Enabled(s, step) && (step.LaunchFails? || step.StartAbandoned?)
    ensures var n := Next(s, step);
            && !n.proxy.running && n.proxy.live == {} && n.proxy.lock == Free && n.jobs == s.jobs
            && n.dev == s.dev.(phase := PhaseAfterFailure(s.dev, s.proxy.lock.who))
  {
    ReachableIsGood(s);
  }

  /** Once the device has settled, the launch and the answer on the port put the proxy in service. */
  lemma SettledServes(s: Slot, p: Pid) returns (t: Slot)
    requires Good(s) && s.proxy.lock.Settling? && s.proxy.live == {} && CanListen(s.cfg)
    ensures Leads(s, [Launch(p), StartRecorded], t) && Serves(t, p) && t.proxy.hostIp == s.proxy.hostIp
    ensures t.cfg == s.cfg && t.dev == s.dev.(phase := Idle) && t.jobs == s.jobs && t.flap == s.flap && t.care == s.care
  {
    var m := Next(s, Launch(p));
    GoodKept(s, Launch(p));
    StartServesGood(m);
    t := Next(m, StartRecorded);
    TwoSteps(s, Launch(p), StartRecorded, t);
  }

  /** The steps of a restart after its first: stop what is recorded, launch `p`, and put it on record. */
  function Restart(s: Slot, first: Step, p: Pid): seq<Step> {
    [first] + ((if s.proxy.running then [FinishStop] else []) + [Launch(p), StartRecorded])
  }

  /** `m` is where a start enters: the lock is settling, or a recorded proxy is stopped for it first. */
  lemma RestartServes(s: Slot, first: Step, who: Launcher, p: Pid) returns (t: Slot)
    requires Good(s) && s.proxy.lock == Free && CanListen(s.cfg) && Enabled(s, first) && LockStep(first)
    requires var m := Next(s, first);
             if s.proxy.running then m.proxy == s.proxy.(lock := Stopping(s.proxy.pid, ForStart(who)))
             else m.proxy == s.proxy.(lock := Settling(who))
    ensures Leads(s, Restart(s, first, p), t) && Serves(t, p) && t.proxy.hostIp == s.proxy.hostIp
    ensures var m := Next(s, first);
            && t.jobs == m.jobs && t.flap == m.flap && t.care == m.care
            && (if s.proxy.running && who.ByApi? then t.dev.present && t.dev.devnode == Some(who.devnode)
                else t.dev == m.dev.(phase := Idle))
  {
    var m := Next(s, first);
    GoodKept(s, first);
    ConfigKept(s, first);
    if s.proxy.running {
      StopSilencesGood(m);
      GoodKept(m, FinishStop);
      t := SettledServes(Next(m, FinishStop), p);
      LeadsFrom(m, FinishStop, [Launch(p), StartRecorded], t);
    } else {
      t := SettledServes(m, p);
      assert [] + [Launch(p), StartRecorded] == [Launch(p), StartRecorded];
    }
    LeadsFrom(s, first, (if s.proxy.running then [FinishStop] else []) + [Launch(p), StartRecorded], t);
  }

  /**
   * A scheduled start that gets the free lock outside flapping and recovery, and meets nobody: whatever proxy
   * was on record is stopped, and a new one serves the slot.
   */
  lemma BgStartServes(s: Slot, i: nat, p: Pid) returns (t: Slot)
    requires Reachable(s) && s.proxy.lock == Free && i < |s.jobs| && s.jobs[i] == BgStart
    requires !s.flap.flapping && !s.care.recovering && CanListen(s.cfg)
    ensures Leads(s, Restart(s, Acquire(i), p), t) && Serves(t, p) && t.proxy.hostIp == s.proxy.hostIp
    ensures t.jobs == Without(s.jobs, i) && t.flap == s.flap && t.care == s.care && t.dev == s.dev.(phase := Idle)
  {
    ReachableIsGood(s);
    t := RestartServes(s, Acquire(i), ByHotplug, p);
  }

  /** Under flapping or recovery it goes away and does nothing else. */
  lemma BgStartGivesWay(s: Slot, i: nat)
    requires Enabled(s, Acquire(i)) && s.jobs[i] == BgStart && (s.flap.flapping || s.care.recovering)
    ensures Next(s, Acquire(i)) == s.(jobs := Without(s.jobs, i))
  {
  }

  /** The operator's start, from any slot whose lock is free. */
  lemma ApiStartServes(s: Slot, devnode: string, p: Pid) returns (t: Slot)
    requires Reachable(s) && s.proxy.lock == Free && CanListen(s.cfg)
    ensures Leads(s, Restart(s, ApiStart(devnode), p), t) && Serves(t, p) && t.proxy.hostIp == s.proxy.hostIp
    ensures t.jobs == s.jobs && t.flap == s.flap && t.care == s.care
    ensures t.dev.present && t.dev.devnode == Some(devnode)
  {
    ReachableIsGood(s);
    t := RestartServes(s, ApiStart(devnode), ByApi(devnode), p);
  }

  /** The boot scan, for a slot that has no proxy yet. */
  lemma BootScanServes(s: Slot, devnode: string, p: Pid) returns (t: Slot)
    requires Reachable(s) && Enabled(s, BootScan(devnode)) && !s.proxy.running && CanListen(s.cfg)
    ensures Leads(s, Restart(s, BootScan(devnode), p), t) && Serves(t, p) && t.proxy.hostIp == s.proxy.hostIp
    ensures t.jobs == s.jobs && t.flap == s.flap && t.care == s.care
    ensures t.dev.present && t.dev.devnode == Some(devnode)
  {
    ReachableIsGood(s);
    t := RestartServes(s, BootScan(devnode), ByBootScan, p);
  }
}
