/**
 * One USB slot of the portal supervisor (pi/portal.py) as a state machine.
 *
 * A step is what one thread does between two sleeps or lock acquisitions. Every outcome
 * of an operating-system call is part of the step, so a run may take any of them. Besides the slot's
 * own fields the state holds the threads that are under way, who holds the slot lock, the
 * proxy processes that are alive, the last USB command written to sysfs, and counters that
 * the theorems speak about.
 */
module SlotModel {
  import opened Common
  import opened FlapWindow
  import opened Gpio

  const FLAP_MAX_RETRIES: nat := 2

  type Pid = nat

  datatype Phase = Absent | Idle | Resetting | Monitoring | Flapping | Recovering | DownloadMode

  datatype Action = Add | Remove | OtherAction(name: string)

  datatype Config = Config(
    tcpPort: Option<nat>, gpioBoot: Option<Pin>, gpioEn: Option<Pin>, usbDevice: Option<string>)

  datatype Url = Url(ip: string, port: nat)

  /** What a hotplug handler still has to do once the recovery it started has been dispatched. */
  datatype Rest = Rest(action: Action, devnode: string)

  /** Who runs `start_proxy`. */
  datatype Launcher = ByHotplug | ByApi(devnode: string) | ByReset | ByBootScan

  /** On whose behalf `stop_proxy` runs. */
  datatype Stopper = ForHotplug | ForApi | ForReset | ForStart(who: Launcher) | ForRecovery(rest: Option<Rest>)

  /** The slot lock: free, or held by a thread that is killing, settling or watching a proxy. */
  datatype Lock =
    | Free
    | Stopping(victim: Option<Pid>, why: Stopper)
    | Settling(who: Launcher)
    | Starting(proc: Pid, who: Launcher)

  /** Threads that wait for the lock or sit in a sleep outside it. */
  datatype Job = BgStart | BgStop | ResetHead | ResetOpen | ResetTail | MonitorOpen | MonitorEnd | ReleaseTail

  /** Recovery threads, by the sleep or lock they sit at. */
  datatype Rescue =
    | Dispatch(rest: Option<Rest>)
    | GpioCooldown | GpioEnLow | GpioEnHigh | GpioRebound
    | NoGpioReady | NoGpioCooldown(retry: nat, began: real)

  datatype Usb = Untouched | Unbound | Rebound

  /** How the last recovery ended. */
  datatype Ending = NoneYet | UsbUnknown | RetriesExhausted | BootDriveFailed | Completed

  /** An accepted hotplug event: when it came and whether it scheduled a proxy start. */
  datatype Event = Event(at: real, starts: bool)

  /** The fields that say what is plugged in and what the UI shows. */
  datatype Device = Device(
    present: bool, devnode: Option<string>, phase: Phase,
    seqNo: nat, lastAction: Option<Action>, lastEventTs: Option<real>)

  /** Flap detection: the flag, the pruned window, and every accepted event since the window was cleared. */
  datatype Flap = Flap(flapping: bool, eventTimes: seq<real>, events: seq<Event>, clock: real)

  /**
   * Recovery: the flag and counter, the threads, and what they did to USB. `freed` remembers that a release
   * was attempted since a recovery last drove the BOOT line.
   */
  datatype Care = Care(
    recovering: bool, retries: nat, rescues: seq<Rescue>, usb: Usb, ending: Ending,
    rebinds: nat, recoverCalls: nat, freed: bool)

  /** The recorded proxy, the slot lock, and the proxy processes that are really alive. */
  datatype Proxy = Proxy(
    running: bool, pid: Option<Pid>, url: Option<Url>, hostIp: string, lock: Lock, live: set<Pid>)

  datatype Slot = Slot(cfg: Config, dev: Device, flap: Flap, care: Care, proxy: Proxy, jobs: seq<Job>)

  datatype Step =
    | Hotplug(action: Action, devnode: string, seqNo: nat, now: real)
    | Poll(now: real, answers: bool)
    | Tick(now: real)
    | HostIp(ip: string)
    | Recover
    | Release(boot: Outcome, en: Outcome)
    | SerialReset
    | SerialMonitor
    | ApiStart(devnode: string)
    | ApiStop
    | BootScan(devnode: string)
    | Acquire(i: nat)
    | JobStep(i: nat, ok: bool, en: Outcome)
    | ResetRaises(i: nat)
    | RescueStep(i: nat, boot: Outcome, en: Outcome)
    | FinishStop
    | Launch(p: Pid)
    | LaunchFails
    | StartRecorded
    | StartAbandoned
    | ProcessDies(p: Pid)

  function Home(d: Device): Phase { if d.present then Idle else Absent }

  /** A hotplug event without a device node leaves an empty one behind. */
  predicate HasDevnode(d: Device) { d.devnode.Some? && d.devnode.value != "" }

  function GoHome(d: Device): Device { d.(phase := Home(d)) }

  /** Port 0 and a missing port never accept a connection. */
  predicate CanListen(c: Config) { c.tcpPort.Some? && c.tcpPort.value != 0 }

  predicate Recorded(p: Proxy) { p.running && p.pid.Some? }

  function Times(events: seq<Event>): (ts: seq<real>)
    ensures |ts| == |events|
    ensures forall i :: 0 <= i < |ts| ==> ts[i] == events[i].at
  {
    seq(|events|, i requires 0 <= i < |events| => events[i].at)
  }

  function MarkStart(events: seq<Event>): seq<Event> {
    if events == [] then [] else events[|events| - 1 := events[|events| - 1].(starts := true)]
  }

  // ---- hotplug and polls ------------------------------------------------------------

  predicate GapClosed(times: seq<real>) {
    |times| < 2 || times[|times| - 1] - times[|times| - 2] >= FLAP_COOLDOWN_S
  }

  predicate SchedulesStart(s: Slot, action: Action) {
    action.Add? && !s.flap.flapping && s.cfg.tcpPort.Some?
  }

  /** The end of the hotplug handler: presence, and the background start or stop. */
  function FinishHotplug(s: Slot, action: Action, devnode: string): (r: Slot)
    ensures r.cfg == s.cfg && r.care == s.care && r.proxy == s.proxy
    ensures forall j :: j in s.jobs ==> j in r.jobs
    ensures !SchedulesStart(s, action) ==> r.flap == s.flap && (r.jobs == s.jobs || r.jobs == s.jobs + [BgStop])
  {
    match action
    case Add =>
      var starts := SchedulesStart(s, action);
      s.(dev := s.dev.(present := true, devnode := Some(devnode),
                       phase := if s.flap.flapping then s.dev.phase else Idle),
         jobs := if starts then s.jobs + [BgStart] else s.jobs,
         flap := if starts then s.flap.(events := MarkStart(s.flap.events)) else s.flap)
    case Remove =>
      s.(dev := s.dev.(present := false, phase := if s.flap.flapping then s.dev.phase else Absent),
         jobs := if s.cfg.tcpPort.Some? && s.proxy.running then s.jobs + [BgStop] else s.jobs)
    case OtherAction(_) => s
  }

  /** The window after one more accepted event, and whether an old flapping state is called off by it. */
  function NoteEvent(f: Flap, now: real): Flap {
    var times := Recent(f.eventTimes + [now], now);
    Flap(f.flapping && !GapClosed(times), times, f.events + [Event(now, false)], now)
  }

  function HandleHotplug(s: Slot, action: Action, devnode: string, seqNo: nat, now: real): Slot {
    var dev := s.dev.(seqNo := seqNo, lastAction := Some(action), lastEventTs := Some(now));
    if s.care.recovering then s.(dev := dev, flap := s.flap.(clock := now))
    else
      var flap := NoteEvent(s.flap, now);
      if !flap.flapping && |flap.eventTimes| >= FLAP_THRESHOLD then
        s.(dev := dev.(phase := Recovering), flap := flap.(flapping := true),
           care := StartRescue(s.care, Some(Rest(action, devnode))))
      else
        var calmed := s.flap.flapping && !flap.flapping;
        FinishHotplug(s.(dev := if calmed then GoHome(dev) else dev, flap := flap), action, devnode)
  }

  function RefreshHealth(s: Slot, answers: bool): Slot {
    if Recorded(s.proxy) && !answers then
      s.(proxy := s.proxy.(running := false, pid := None, url := None), dev := GoHome(s.dev))
    else s
  }

  function ClearStaleFlapping(s: Slot, now: real): Slot {
    if s.flap.flapping && !s.care.recovering then
      var recent := Recent(s.flap.eventTimes, now);
      if |recent| < FLAP_THRESHOLD
      then s.(flap := s.flap.(eventTimes := recent, flapping := false), dev := GoHome(s.dev))
      else s.(flap := s.flap.(eventTimes := recent))
    else s
  }

  // ---- recovery ---------------------------------------------------------------------

  function StartRescue(c: Care, rest: Option<Rest>): Care {
    c.(recovering := true, rescues := c.rescues + [Dispatch(rest)])
  }

  function HandleRecover(s: Slot): Slot {
    var armed := s.(care := s.care.(retries := 0, recoverCalls := s.care.recoverCalls + 1),
                    flap := s.flap.(flapping := true));
    if s.care.recovering then armed
    else armed.(care := StartRescue(armed.care, None), dev := s.dev.(phase := Recovering))
  }

  function Unbind(cfg: Config, c: Care): Care {
    if cfg.usbDevice.None? then c.(recovering := false, ending := UsbUnknown)
    else c.(usb := Unbound, rescues := c.rescues + [if cfg.gpioBoot.Some? then GpioCooldown else NoGpioReady])
  }

  /** After the proxy is down: unbind USB, start the recovery thread, finish the caller's work. */
  function UnbindAndSpawn(s: Slot, rest: Option<Rest>): (r: Slot)
    ensures r.cfg == s.cfg && r.care == Unbind(s.cfg, s.care) && r.proxy == s.proxy
    ensures forall j :: j in s.jobs ==> j in r.jobs
    ensures s.flap.flapping ==> r.flap == s.flap && (r.jobs == s.jobs || r.jobs == s.jobs + [BgStop])
  {
    var sent := s.(care := Unbind(s.cfg, s.care),
                   dev := if s.cfg.usbDevice.None? then s.dev.(phase := Flapping) else s.dev);
    if rest.Some? then FinishHotplug(sent, rest.value.action, rest.value.devnode) else sent
  }

  function Rebind(c: Care): Care { c.(usb := Rebound, rebinds := c.rebinds + 1) }

  function Leave(c: Care, i: nat): Care
    requires i < |c.rescues|
  {
    c.(rescues := Without(c.rescues, i))
  }

  function End(c: Care, i: nat, ending: Ending): Care
    requires i < |c.rescues|
  {
    Leave(c, i).(recovering := false, ending := ending)
  }

  function Goto(c: Care, i: nat, r: Rescue): Care
    requires i < |c.rescues|
  {
    c.(rescues := Put(c.rescues, i, r))
  }

  /** What a recovery thread's segment does to the recovery state; the dispatcher is treated apart. */
  function AdvanceCare(cfg: Config, c: Care, i: nat, boot: Outcome, en: Outcome, now: real): Care
    requires i < |c.rescues| && !c.rescues[i].Dispatch?
  {
    match c.rescues[i]
    case NoGpioReady =>
      if c.retries >= FLAP_MAX_RETRIES then End(c, i, RetriesExhausted)
      else Goto(c, i, NoGpioCooldown(c.retries, now))
    case NoGpioCooldown(retry, _) => Rebind(End(c, i, Completed).(retries := retry + 1))
    case GpioCooldown =>
      if boot != Works then End(c, i, BootDriveFailed)
      else
        var low := c.(freed := false);
        if cfg.gpioEn.Some? && en == Works then Goto(low, i, GpioEnLow) else Rebind(Goto(low, i, GpioRebound))
    case GpioEnLow => if en == Works then Goto(c, i, GpioEnHigh) else Rebind(Goto(c, i, GpioRebound))
    case GpioEnHigh => Rebind(Goto(c, i, GpioRebound))
    case GpioRebound => End(c, i, Completed).(retries := 0)
  }

  function AdvanceRescue(s: Slot, i: nat, boot: Outcome, en: Outcome): Slot
    requires i < |s.care.rescues|
  {
    match s.care.rescues[i]
    case Dispatch(rest) =>
      var left := s.(care := Leave(s.care, i));
      if Recorded(s.proxy)
      then left.(proxy := s.proxy.(lock := Stopping(s.proxy.pid, ForRecovery(rest))))
      else UnbindAndSpawn(left, rest)
    case rescue =>
      var moved := s.(care := AdvanceCare(s.cfg, s.care, i, boot, en, s.flap.clock));
      if |moved.care.rescues| == |s.care.rescues| then moved
      else if rescue.NoGpioCooldown? then
        moved.(flap := s.flap.(flapping := false, eventTimes := [], events := []), dev := s.dev.(phase := Idle))
      else if rescue.GpioRebound? then
        moved.(flap := s.flap.(flapping := false), dev := s.dev.(phase := DownloadMode))
      else moved.(dev := s.dev.(phase := Flapping))
  }

  predicate MayRelease(s: Slot) { s.cfg.gpioBoot.Some? && s.dev.phase == DownloadMode }

  function HandleRelease(s: Slot, boot: Outcome, en: Outcome): Slot {
    if !MayRelease(s) then s
    else
      var tried := s.(care := s.care.(freed := true));
      if boot != Works then tried
      else if s.cfg.gpioEn.Some? && en == Works then tried.(jobs := s.jobs + [ReleaseTail])
      else tried.(dev := s.dev.(phase := Idle), care := tried.care.(retries := 0))
  }

  // ---- proxy life cycle under the slot lock -----------------------------------------

  function WithLock(s: Slot, lock: Lock): Slot { s.(proxy := s.proxy.(lock := lock)) }

  /** Enter `start_proxy` with the lock held. */
  function EnterStart(s: Slot, who: Launcher): Slot {
    var settling := WithLock(s, Settling(who));
    if who.ByApi? then settling.(dev := s.dev.(devnode := Some(who.devnode), present := true)) else settling
  }

  /** What the launcher does once `start_proxy` has returned, before it gives the lock back. */
  function LeaveStart(s: Slot, who: Launcher, ok: bool): Slot {
    WithLock(s, Free).(dev :=
      if who.ByApi? && !ok && s.dev.phase != Idle && s.dev.phase != Flapping then s.dev.(phase := Idle)
      else if who.ByReset? && s.dev.phase == Resetting then GoHome(s.dev)
      else s.dev)
  }

  /** `stop_proxy` is over: the victim is dead and the record cleared. */
  function Down(p: Proxy, victim: Option<Pid>): Proxy {
    p.(live := p.live - Elements(victim), running := false, pid := None, url := None, lock := Free)
  }

  /** The end of `stop_proxy` and what its caller does next. */
  function LeaveStop(s: Slot, victim: Option<Pid>, why: Stopper): Slot {
    var down := s.(proxy := Down(s.proxy, victim));
    match why
    case ForHotplug => down
    case ForApi => down.(dev := GoHome(s.dev))
    case ForReset => down.(dev := s.dev.(phase := Resetting), jobs := s.jobs + [ResetOpen])
    case ForStart(who) => EnterStart(down, who)
    case ForRecovery(rest) => UnbindAndSpawn(down, rest)
  }

  /** Under the lock, stop what is recorded and then start: the shape of every restart. */
  function StopThenStart(s: Slot, who: Launcher): Slot {
    if Recorded(s.proxy) then WithLock(s, Stopping(s.proxy.pid, ForStart(who))) else EnterStart(s, who)
  }

  /** A waiting thread gets the lock. */
  function AcquireLock(s: Slot, i: nat): Slot
    requires i < |s.jobs|
  {
    var left := s.(jobs := Without(s.jobs, i));
    match s.jobs[i]
    case BgStart => if s.flap.flapping || s.care.recovering then left else StopThenStart(left, ByHotplug)
    case BgStop => WithLock(left, Stopping(s.proxy.pid, ForHotplug))
    case ResetHead => WithLock(left, Stopping(s.proxy.pid, ForReset))
    case ResetTail => if s.proxy.running then LeaveStart(left, ByReset, true) else EnterStart(left, ByReset)
    case _ => s
  }

  /** A thread outside the lock moves on; `ok` is whether the serial port or URL could be opened. */
  function AdvanceJob(s: Slot, i: nat, ok: bool): Slot
    requires i < |s.jobs|
  {
    var left := s.(jobs := Without(s.jobs, i));
    match s.jobs[i]
    case ResetOpen => if ok then s.(jobs := Put(s.jobs, i, ResetTail)) else left.(dev := GoHome(s.dev))
    case MonitorOpen =>
      if ok then s.(dev := s.dev.(phase := Monitoring), jobs := Put(s.jobs, i, MonitorEnd)) else left
    case MonitorEnd => left.(dev := GoHome(s.dev))
    case ReleaseTail => left.(dev := s.dev.(phase := Idle), care := s.care.(retries := 0))
    case _ => s
  }

  function HandleBootScan(s: Slot, devnode: string): Slot {
    var found := s.(dev := s.dev.(present := true, devnode := Some(devnode), phase := Idle));
    if s.cfg.tcpPort.Some? && !s.proxy.running then EnterStart(found, ByBootScan) else found
  }

  function ChangeHostIp(cfg: Config, p: Proxy, ip: string): Proxy {
    p.(hostIp := ip,
       url := if ip != p.hostIp && p.running && CanListen(cfg) then Some(Url(ip, cfg.tcpPort.value)) else p.url)
  }

  function Record(cfg: Config, p: Proxy): Proxy
    requires p.lock.Starting? && CanListen(cfg)
  {
    p.(running := true, pid := Some(p.lock.proc), url := Some(Url(p.hostIp, cfg.tcpPort.value)))
  }

  // ---- the step relation ------------------------------------------------------------

  predicate NeedsLock(j: Job) { j.BgStart? || j.BgStop? || j.ResetHead? || j.ResetTail? }

  /** A recovery without GPIO sleeps for the whole cooldown. */
  predicate CooledDown(r: Rescue, now: real) { r.NoGpioCooldown? ==> r.began + FLAP_COOLDOWN_S <= now }

  /** When a step can happen. Nothing here restricts the callers beyond the lock and the clock. */
  predicate Enabled(s: Slot, step: Step) {
    match step
    case Hotplug(_, _, _, now) => s.flap.clock <= now
    // a live process always answers signal 0; a dead one may still answer as a zombie
    case Poll(now, answers) =>
      s.flap.clock <= now && (s.proxy.pid.Some? && s.proxy.pid.value in s.proxy.live ==> answers)
    case ApiStart(_) => s.proxy.lock == Free
    case ApiStop => s.proxy.lock == Free
    // before the server listens: nothing else is under way
    case BootScan(_) => s.proxy.lock == Free && s.jobs == [] && s.care.rescues == []
    case Acquire(i) => s.proxy.lock == Free && i < |s.jobs| && NeedsLock(s.jobs[i])
    case JobStep(i, _, _) => i < |s.jobs| && !NeedsLock(s.jobs[i])
    case ResetRaises(i) => i < |s.jobs| && s.jobs[i].ResetOpen?
    case RescueStep(i, _, _) =>
      && i < |s.care.rescues|
      && (s.care.rescues[i].Dispatch? ==> s.proxy.lock == Free)
      && CooledDown(s.care.rescues[i], s.flap.clock)
    case Tick(now) => s.flap.clock <= now
    case FinishStop => s.proxy.lock.Stopping?
    case Launch(p) => s.proxy.lock.Settling? && p !in s.proxy.live
    case LaunchFails => s.proxy.lock.Settling?
    case StartRecorded => s.proxy.lock.Starting? && CanListen(s.cfg)
    case StartAbandoned => s.proxy.lock.Starting?
    case ProcessDies(p) => p in s.proxy.live
    case _ => true
  }

  function Next(s: Slot, step: Step): Slot
    requires Enabled(s, step)
  {
    match step
    case Hotplug(action, devnode, seqNo, now) => HandleHotplug(s, action, devnode, seqNo, now)
    case Poll(now, answers) =>
      var refreshed := RefreshHealth(s, answers);
      ClearStaleFlapping(refreshed.(flap := s.flap.(clock := now)), now)
    case Tick(now) => s.(flap := s.flap.(clock := now))
    case HostIp(ip) => s.(proxy := ChangeHostIp(s.cfg, s.proxy, ip))
    case Recover => HandleRecover(s)
    case Release(boot, en) => HandleRelease(s, boot, en)
    case SerialReset => if HasDevnode(s.dev) && s.dev.present then s.(jobs := s.jobs + [ResetHead]) else s
    case SerialMonitor => if CanListen(s.cfg) && s.proxy.running then s.(jobs := s.jobs + [MonitorOpen]) else s
    case ApiStart(devnode) => StopThenStart(s, ByApi(devnode))
    case ApiStop => WithLock(s, Stopping(s.proxy.pid, ForApi))
    case BootScan(devnode) => HandleBootScan(s, devnode)
    case Acquire(i) => AcquireLock(s, i)
    case JobStep(i, ok, _) => AdvanceJob(s, i, ok)
    // the pulse or the read raises: the request ends and the slot still says resetting
    case ResetRaises(i) => s.(jobs := Without(s.jobs, i))
    case RescueStep(i, boot, en) => AdvanceRescue(s, i, boot, en)
    case FinishStop => LeaveStop(s, s.proxy.lock.victim, s.proxy.lock.why)
    case Launch(p) => s.(proxy := s.proxy.(live := s.proxy.live + {p}, lock := Starting(p, s.proxy.lock.who)))
    case LaunchFails => LeaveStart(s, s.proxy.lock.who, false)
    case StartRecorded =>
      LeaveStart(s.(proxy := Record(s.cfg, s.proxy), dev := s.dev.(phase := Idle)), s.proxy.lock.who, true)
    case StartAbandoned =>
      LeaveStart(s.(proxy := s.proxy.(live := s.proxy.live - {s.proxy.lock.proc})), s.proxy.lock.who, false)
    case ProcessDies(p) => s.(proxy := s.proxy.(live := s.proxy.live - {p}))
  }

  /** A slot as `load_config` or `_make_dynamic_slot` builds it; a configured one may carry a URL already. */
  ghost predicate Initial(s: Slot) {
    && !s.dev.present && s.dev.devnode == None && s.dev.phase == Absent
    && !s.flap.flapping && s.flap.eventTimes == [] && s.flap.events == []
    && s.care == Care(false, 0, [], Untouched, NoneYet, 0, 0, false)
    && !s.proxy.running && s.proxy.pid == None && s.proxy.lock == Free && s.proxy.live == {}
    && s.jobs == []
  }

  ghost predicate Run(states: seq<Slot>, steps: seq<Step>) {
    && |states| == |steps| + 1
    && Initial(states[0])
    && forall i :: 0 <= i < |steps| ==> Enabled(states[i], steps[i]) && states[i + 1] == Next(states[i], steps[i])
  }

  ghost predicate Reachable(s: Slot) {
    exists states, steps :: Run(states, steps) && s == states[|states| - 1]
  }
}
