/**
 * The whole portal: all slots, the GPIO lines they share, and `host_ip`.
 * Main result: a slot in download mode has its BOOT line driven low exactly if no release was attempted
 * since the slot's recovery drove it, whatever the other slots do.
 */
module Portal {
  import opened Common
  import opened Gpio
  import opened SlotModel
  import opened SlotTheorems

  /** Tracker states that agree with the hardware; `SetLine` never leaves them. */
  type Tracked = g: Lines | Agrees(g) witness NO_LINES

  /** `touched` remembers the pins that /api/gpio/set was used on. */
  datatype System = System(slots: map<string, Slot>, lines: Tracked, hostIp: string, touched: set<Pin>)

  datatype Move =
    | SlotMove(key: string, step: Step)
    | RefreshHostIp(ip: string)
    | GpioApi(pin: Pin, value: Setting, outcome: Outcome)
    | Discover(key: string, slot: Slot)

  /** The lines after the `_gpio_set` calls of one step of a slot. */
  function LinesAfter(g: Lines, s: Slot, step: Step): (r: Lines)
    requires Agrees(g) && Enabled(s, step)
    ensures Agrees(r)
  {
    match step
    case Release(boot, en) =>
      if !MayRelease(s) then g
      else
        var freed := SetLine(g, s.cfg.gpioBoot.value, HighZ, boot);
        if boot == Works && s.cfg.gpioEn.Some? then SetLine(freed, s.cfg.gpioEn.value, Drive(Low), en) else freed
    case JobStep(i, _, en) =>
      if s.jobs[i].ReleaseTail? && s.cfg.gpioEn.Some? then SetLine(g, s.cfg.gpioEn.value, Drive(High), en) else g
    case RescueStep(i, boot, en) => RescueLines(g, s, s.care.rescues[i], boot, en)
    case _ => g
  }

  function RescueLines(g: Lines, s: Slot, rescue: Rescue, boot: Outcome, en: Outcome): (r: Lines)
    requires Agrees(g)
    ensures Agrees(r)
  {
    if rescue.GpioCooldown? && s.cfg.gpioBoot.Some? then
      var held := SetLine(g, s.cfg.gpioBoot.value, Drive(Low), boot);
      if boot == Works && s.cfg.gpioEn.Some? then SetLine(held, s.cfg.gpioEn.value, Drive(Low), en) else held
    else if rescue.GpioEnLow? && s.cfg.gpioEn.Some? then SetLine(g, s.cfg.gpioEn.value, Drive(High), en)
    else g
  }

  /** What is said of the GPIO calls of a step can happen; the second call of a step finds the chip open. */
  predicate OutcomesFit(g: Lines, step: Step) {
    match step
    case Release(boot, en) => Fits(g, boot) && en != OpenFails
    case RescueStep(_, boot, en) => Fits(g, boot) && en != OpenFails
    case JobStep(_, _, en) => Fits(g, en)
    case _ => true
  }

  /** A slot whose key was not configured has no port and no pins. */
  predicate Dynamic(c: Config) { c.tcpPort.None? && c.gpioBoot.None? && c.gpioEn.None? }

  ghost predicate Possible(sys: System, move: Move) {
    match move
    case SlotMove(key, step) =>
      key in sys.slots && !step.HostIp? && Enabled(sys.slots[key], step) && OutcomesFit(sys.lines, step)
    case GpioApi(_, _, outcome) => Fits(sys.lines, outcome)
    case Discover(key, slot) =>
      key !in sys.slots && Initial(slot) && Dynamic(slot.cfg) && slot.proxy.hostIp == sys.hostIp
    case _ => true
  }

  ghost function After(sys: System, move: Move): System
    requires Possible(sys, move)
  {
    match move
    case SlotMove(key, step) =>
      sys.(slots := sys.slots[key := Next(sys.slots[key], step)],
           lines := LinesAfter(sys.lines, sys.slots[key], step))
    case RefreshHostIp(ip) =>
      sys.(hostIp := ip, slots := map k | k in sys.slots :: Next(sys.slots[k], HostIp(ip)))
    case GpioApi(pin, value, outcome) =>
      sys.(lines := SetLine(sys.lines, pin, value, outcome), touched := sys.touched + {pin})
    case Discover(key, slot) => sys.(slots := sys.slots[key := slot])
  }

  // ---- pins -------------------------------------------------------------------------

  predicate UsesPin(c: Config, pin: Pin) { c.gpioBoot == Some(pin) || c.gpioEn == Some(pin) }

  /** No BOOT pin has a second use. */
  ghost predicate BootPinsDistinct(slots: map<string, Slot>) {
    forall k :: k in slots && slots[k].cfg.gpioBoot.Some? ==>
      var pin := slots[k].cfg.gpioBoot.value;
      && slots[k].cfg.gpioEn != Some(pin)
      && forall other :: other in slots && other != k ==> !UsesPin(slots[other].cfg, pin)
  }

  // ---- the BOOT line is held --------------------------------------------------------

  predicate PastBootDrive(r: Rescue) { r.GpioEnLow? || r.GpioEnHigh? || r.GpioRebound? }

  /** BOOT is held exactly until a release lets go of it, from when a recovery drives it on. */
  ghost predicate Holds(s: Slot, lines: Lines) {
    s.cfg.gpioBoot.Some? ==>
      var pin := s.cfg.gpioBoot.value;
      && (s.dev.phase == DownloadMode ==> (DrivenLow(lines, pin) <==> !s.care.freed))
      && (forall r :: r in s.care.rescues && PastBootDrive(r) ==> DrivenLow(lines, pin) && !s.care.freed)
  }

  /** A step drives no line but the slot's own pins. */
  lemma OthersUndisturbed(g: Lines, s: Slot, step: Step, pin: Pin)
    requires Agrees(g) && Enabled(s, step) && !UsesPin(s.cfg, pin)
    ensures LineOf(LinesAfter(g, s, step), pin) == LineOf(g, pin)
  {
    match step
    case Release(boot, en) =>
      if MayRelease(s) {
        SetLeavesOthers(g, s.cfg.gpioBoot.value, HighZ, boot, pin);
        if s.cfg.gpioEn.Some? {
          SetLeavesOthers(SetLine(g, s.cfg.gpioBoot.value, HighZ, boot), s.cfg.gpioEn.value, Drive(Low), en, pin);
        }
      }
    case JobStep(_, _, en) =>
      if s.cfg.gpioEn.Some? {
        SetLeavesOthers(g, s.cfg.gpioEn.value, Drive(High), en, pin);
      }
    case RescueStep(i, boot, en) => RescueUndisturbed(g, s, s.care.rescues[i], boot, en, pin);
    case _ =>
  }

  lemma RescueUndisturbed(g: Lines, s: Slot, rescue: Rescue, boot: Outcome, en: Outcome, pin: Pin)
    requires Agrees(g) && !UsesPin(s.cfg, pin)
    ensures LineOf(RescueLines(g, s, rescue, boot, en), pin) == LineOf(g, pin)
  {
    if s.cfg.gpioBoot.Some? {
      var low := Drive(Low);
      SetLeavesOthers(g, s.cfg.gpioBoot.value, low, boot, pin);
      if s.cfg.gpioEn.Some? {
        SetLeavesOthers(SetLine(g, s.cfg.gpioBoot.value, low, boot), s.cfg.gpioEn.value, low, en, pin);
      }
    }
    if s.cfg.gpioEn.Some? {
      SetLeavesOthers(g, s.cfg.gpioEn.value, Drive(High), en, pin);
    }
  }

  predicate DrivesBoot(s: Slot, step: Step)
    requires Enabled(s, step)
  {
    step.RescueStep? && s.care.rescues[step.i].GpioCooldown?
  }

  predicate Releases(s: Slot, step: Step) { step.Release? && MayRelease(s) }

  /** What the slot's own step does to its BOOT line: a recovery drives it, a release lets it go. */
  lemma OwnBootLine(g: Lines, s: Slot, step: Step)
    requires Agrees(g) && Enabled(s, step) && s.cfg.gpioBoot.Some? && s.cfg.gpioEn != s.cfg.gpioBoot
    ensures var pin, after := s.cfg.gpioBoot.value, LinesAfter(g, s, step);
            && (DrivesBoot(s, step) && step.boot == Works ==> DrivenLow(after, pin))
            && (Releases(s, step) ==> !DrivenLow(after, pin))
            && (!DrivesBoot(s, step) && !Releases(s, step) ==> LineOf(after, pin) == LineOf(g, pin))
  {
    var pin := s.cfg.gpioBoot.value;
    match step
    case Release(boot, en) =>
      LettingGo(g, pin, boot);
      EnLeavesBoot(SetLine(g, pin, HighZ, boot), s.cfg, Low, en);
    case JobStep(_, _, en) => EnLeavesBoot(g, s.cfg, High, en);
    case RescueStep(_, boot, en) =>
      SetReaches(g, pin, Drive(Low));
      EnLeavesBoot(SetLine(g, pin, Drive(Low), Works), s.cfg, Low, en);
      EnLeavesBoot(g, s.cfg, High, en);
    case _ =>
  }

  lemma EnLeavesBoot(g: Lines, cfg: Config, level: Level, en: Outcome)
    requires Agrees(g) && cfg.gpioBoot.Some? && cfg.gpioEn != cfg.gpioBoot
    ensures cfg.gpioEn.Some? ==>
              var boot := cfg.gpioBoot.value;
              LineOf(SetLine(g, cfg.gpioEn.value, Drive(level), en), boot) == LineOf(g, boot)
  {
    if cfg.gpioEn.Some? {
      SetLeavesOthers(g, cfg.gpioEn.value, Drive(level), en, cfg.gpioBoot.value);
    }
  }

  /** The first half of an EN pulse: a recovery that drove BOOT, or a release that let it go. */
  predicate PullsEn(s: Slot, step: Step)
    requires Enabled(s, step)
  {
    (DrivesBoot(s, step) && step.boot == Works) || (Releases(s, step) && step.boot == Works)
  }

  /** The second half. */
  predicate RaisesEn(s: Slot, step: Step)
    requires Enabled(s, step)
  {
    || (step.RescueStep? && s.care.rescues[step.i].GpioEnLow?)
    || (step.JobStep? && s.jobs[step.i].ReleaseTail?)
  }

  /** A line as a step found it and left it: low in the first half of a pulse, high in the second, else untouched. */
  ghost predicate EnTold(g: Lines, after: Lines, pin: Pin, pulls: bool, raises: bool, en: Outcome) {
    && (pulls && en == Works ==> LineOf(after, pin) == Some(Line(pin, Output, Low)))
    && (raises && en == Works ==> LineOf(after, pin) == Some(Line(pin, Output, High)))
    && (!pulls && !raises ==> LineOf(after, pin) == LineOf(g, pin))
  }

  /** The outcome of the step's call on EN, if it makes one. */
  function EnOutcome(step: Step): Outcome {
    if step.Release? || step.JobStep? || step.RescueStep? then step.en else Works
  }

  /** What the slot's own step does to its EN line. */
  lemma OwnEnLine(g: Lines, s: Slot, step: Step)
    requires Agrees(g) && Good(s) && Enabled(s, step) && s.cfg.gpioEn.Some? && s.cfg.gpioEn != s.cfg.gpioBoot
    ensures EnTold(g, LinesAfter(g, s, step), s.cfg.gpioEn.value, PullsEn(s, step), RaisesEn(s, step), EnOutcome(step))
  {
    match step
    case Release(boot, en) =>
      if MayRelease(s) {
        EnPulled(g, s.cfg, HighZ, boot);
      }
    case JobStep(_, _, en) => SetReaches(g, s.cfg.gpioEn.value, Drive(High));
    case RescueStep(i, boot, en) =>
      assert s.care.rescues[i] in s.care.rescues;
      RescueEn(g, s, s.care.rescues[i], boot, en);
    case _ =>
  }

  lemma RescueEn(g: Lines, s: Slot, rescue: Rescue, boot: Outcome, en: Outcome)
    requires Agrees(g) && s.cfg.gpioEn.Some? && s.cfg.gpioEn != s.cfg.gpioBoot
    requires rescue.GpioCooldown? ==> s.cfg.gpioBoot.Some?
    ensures EnTold(g, RescueLines(g, s, rescue, boot, en), s.cfg.gpioEn.value,
                   rescue.GpioCooldown? && boot == Works, rescue.GpioEnLow?, en)
  {
    if rescue.GpioCooldown? {
      EnPulled(g, s.cfg, Drive(Low), boot);
    } else {
      SetReaches(g, s.cfg.gpioEn.value, Drive(High));
    }
  }

  /** A call on BOOT leaves EN alone, and a following one that works pulls it low. */
  lemma EnPulled(g: Lines, cfg: Config, boot: Setting, outcome: Outcome)
    requires Agrees(g) && cfg.gpioBoot.Some? && cfg.gpioEn.Some? && cfg.gpioEn != cfg.gpioBoot
    ensures var pin, mid := cfg.gpioEn.value, SetLine(g, cfg.gpioBoot.value, boot, outcome);
            && LineOf(mid, pin) == LineOf(g, pin)
            && LineOf(SetLine(mid, pin, Drive(Low), Works), pin) == Some(Line(pin, Output, Low))
  {
    SetLeavesOthers(g, cfg.gpioBoot.value, boot, outcome, cfg.gpioEn.value);
    SetReaches(SetLine(g, cfg.gpioBoot.value, boot, outcome), cfg.gpioEn.value, Drive(Low));
  }

  /** A step of a slot keeps what is known of its BOOT line. */
  lemma OwnMoveHolds(g: Lines, s: Slot, step: Step)
    requires Agrees(g) && Good(s) && Enabled(s, step) && Holds(s, g)
    requires s.cfg.gpioBoot.Some? ==> s.cfg.gpioEn != s.cfg.gpioBoot
    ensures Holds(Next(s, step), LinesAfter(g, s, step))
  {
    FixedByStep(s, step);
    if s.cfg.gpioBoot.Some? {
      if step.RescueStep? {
        RescueMoveHolds(g, s, step);
      } else {
        QuietMoveHolds(g, s, step);
      }
    }
  }

  /** Outside recovery threads a step enters no held stage, and only a release changes the flag. */
  lemma QuietMoveCare(s: Slot, step: Step)
    requires Good(s) && Enabled(s, step) && !step.RescueStep?
    ensures var c := CareAfter(s, step);
            && (forall r :: r in c.rescues && PastBootDrive(r) ==> r in s.care.rescues)
            && (c.freed <==> s.care.freed || Releases(s, step))
            && (Releases(s, step) ==> forall r :: r in c.rescues ==> !PastBootDrive(r))
  {
  }

  /** The lock's owner never brings a slot into download mode. */
  lemma LockMovePhase(s: Slot, step: Step)
    requires Enabled(s, step) && (step.FinishStop? || step.Acquire? || step.ApiStart? || step.ApiStop?)
    requires Next(s, step).dev.phase == DownloadMode
    ensures s.dev.phase == DownloadMode
  {
  }

  /** Outside recovery threads a step does not bring a slot into download mode. */
  lemma QuietMovePhase(s: Slot, step: Step)
    requires Enabled(s, step) && !step.RescueStep?
    requires Next(s, step).dev.phase == DownloadMode
    ensures s.dev.phase == DownloadMode
  {
    if step.FinishStop? || step.Acquire? || step.ApiStart? || step.ApiStop? {
      LockMovePhase(s, step);
    }
  }

  lemma QuietMoveHolds(g: Lines, s: Slot, step: Step)
    requires Agrees(g) && Good(s) && Enabled(s, step) && Holds(s, g) && !step.RescueStep?
    requires s.cfg.gpioBoot.Some? && s.cfg.gpioEn != s.cfg.gpioBoot
    ensures Holds(Next(s, step), LinesAfter(g, s, step))
  {
    OwnBootLine(g, s, step);
    CareIsAfter(s, step);
    QuietMoveCare(s, step);
    FixedByStep(s, step);
    if Next(s, step).dev.phase == DownloadMode {
      QuietMovePhase(s, step);
    }
  }

  lemma RescueMoveHolds(g: Lines, s: Slot, step: Step)
    requires Agrees(g) && Good(s) && Enabled(s, step) && Holds(s, g) && step.RescueStep?
    requires s.cfg.gpioBoot.Some? && s.cfg.gpioEn != s.cfg.gpioBoot
    ensures Holds(Next(s, step), LinesAfter(g, s, step))
  {
    OwnBootLine(g, s, step);
    assert s.care.rescues[step.i] in s.care.rescues;
  }

  // ---- the whole system -------------------------------------------------------------

  ghost predicate SystemInitial(sys: System) {
    && sys.lines == NO_LINES && sys.touched == {}
    && (forall k :: k in sys.slots ==> Initial(sys.slots[k]) && sys.slots[k].proxy.hostIp == sys.hostIp)
    && BootPinsDistinct(sys.slots)
  }

  ghost predicate SystemGood(sys: System) {
    && BootPinsDistinct(sys.slots)
    && (forall k :: k in sys.slots ==> Good(sys.slots[k]) && sys.slots[k].proxy.hostIp == sys.hostIp)
    && (forall k :: k in sys.slots && sys.touched !! Elements(sys.slots[k].cfg.gpioBoot) ==>
          Holds(sys.slots[k], sys.lines))
  }

  ghost predicate SystemRun(states: seq<System>, moves: seq<Move>) {
    && |states| == |moves| + 1
    && SystemInitial(states[0])
    && forall i :: 0 <= i < |moves| ==>
         && Possible(states[i], moves[i])
         && states[i + 1] == After(states[i], moves[i])
  }

  /** A step of one slot leaves every BOOT line as its slot needs it. */
  lemma SlotMoveHolds(sys: System, key: string, step: Step, k: string)
    requires SystemGood(sys) && Possible(sys, SlotMove(key, step)) && k in sys.slots
    requires sys.touched !! Elements(sys.slots[k].cfg.gpioBoot)
    ensures Holds(After(sys, SlotMove(key, step)).slots[k], After(sys, SlotMove(key, step)).lines)
  {
    var s := sys.slots[key];
    if k == key {
      OwnMoveHolds(sys.lines, s, step);
    } else if sys.slots[k].cfg.gpioBoot.Some? {
      OthersUndisturbed(sys.lines, s, step, sys.slots[k].cfg.gpioBoot.value);
    }
  }

  lemma SlotMovePins(sys: System, key: string, step: Step)
    requires BootPinsDistinct(sys.slots) && Possible(sys, SlotMove(key, step))
    ensures BootPinsDistinct(After(sys, SlotMove(key, step)).slots)
  {
    FixedByStep(sys.slots[key], step);
  }

  lemma SlotMoveGood(sys: System, key: string, step: Step)
    requires SystemGood(sys) && Possible(sys, SlotMove(key, step))
    ensures SystemGood(After(sys, SlotMove(key, step)))
  {
    var next := After(sys, SlotMove(key, step));
    GoodKept(sys.slots[key], step);
    FixedByStep(sys.slots[key], step);
    SlotMovePins(sys, key, step);
    forall k | k in next.slots && next.touched !! Elements(next.slots[k].cfg.gpioBoot)
      ensures Holds(next.slots[k], next.lines)
    {
      SlotMoveHolds(sys, key, step, k);
    }
  }

  lemma FixedByStep(s: Slot, step: Step)
    requires Enabled(s, step)
    ensures Next(s, step).cfg == s.cfg
    ensures !step.HostIp? ==> Next(s, step).proxy.hostIp == s.proxy.hostIp
  {
  }

  lemma HostIpSlotGood(s: Slot, ip: string, lines: Tracked)
    requires Good(s)
    ensures Good(Next(s, HostIp(ip))) && Next(s, HostIp(ip)).cfg == s.cfg
    ensures Next(s, HostIp(ip)).proxy.hostIp == ip
    ensures Holds(s, lines) ==> Holds(Next(s, HostIp(ip)), lines)
  {
    GoodKept(s, HostIp(ip));
  }

  lemma HostIpGood(sys: System, ip: string)
    requires SystemGood(sys)
    ensures SystemGood(After(sys, RefreshHostIp(ip)))
  {
    forall k | k in sys.slots
      ensures var n := Next(sys.slots[k], HostIp(ip));
              && Good(n) && n.cfg == sys.slots[k].cfg && n.proxy.hostIp == ip
              && (Holds(sys.slots[k], sys.lines) ==> Holds(n, sys.lines))
    {
      HostIpSlotGood(sys.slots[k], ip, sys.lines);
    }
  }

  lemma GpioApiGood(sys: System, pin: Pin, value: Setting, outcome: Outcome)
    requires SystemGood(sys) && Possible(sys, GpioApi(pin, value, outcome))
    ensures SystemGood(After(sys, GpioApi(pin, value, outcome)))
  {
    var next := After(sys, GpioApi(pin, value, outcome));
    forall k | k in next.slots && next.touched !! Elements(next.slots[k].cfg.gpioBoot)
      ensures Holds(next.slots[k], next.lines)
    {
      if next.slots[k].cfg.gpioBoot.Some? {
        assert next.slots[k].cfg.gpioBoot.value in Elements(next.slots[k].cfg.gpioBoot);
        SetLeavesOthers(sys.lines, pin, value, outcome, next.slots[k].cfg.gpioBoot.value);
      }
    }
  }

  lemma DiscoverPins(sys: System, key: string, slot: Slot)
    requires BootPinsDistinct(sys.slots) && key !in sys.slots && Dynamic(slot.cfg)
    ensures BootPinsDistinct(sys.slots[key := slot])
  {
    assert forall pin :: !UsesPin(slot.cfg, pin);
  }

  lemma DiscoverGood(sys: System, key: string, slot: Slot)
    requires SystemGood(sys) && Possible(sys, Discover(key, slot))
    ensures SystemGood(After(sys, Discover(key, slot)))
  {
    var next := After(sys, Discover(key, slot));
    InitialIsGood(slot);
    DiscoverPins(sys, key, slot);
    forall k | k in next.slots
      ensures Good(next.slots[k]) && next.slots[k].proxy.hostIp == next.hostIp
      ensures next.touched !! Elements(next.slots[k].cfg.gpioBoot) ==> Holds(next.slots[k], next.lines)
    {
      assert k != key ==> next.slots[k] == sys.slots[k];
    }
  }

  lemma {:induction false} SystemRunGood(states: seq<System>, moves: seq<Move>, k: nat)
    requires SystemRun(states, moves) && k < |states|
    ensures SystemGood(states[k])
  {
    if k == 0 {
      forall key | key in states[0].slots ensures Good(states[0].slots[key]) {
        InitialIsGood(states[0].slots[key]);
      }
    } else {
      SystemRunGood(states, moves, k - 1);
      match moves[k - 1]
      case SlotMove(key, step) => SlotMoveGood(states[k - 1], key, step);
      case RefreshHostIp(ip) => HostIpGood(states[k - 1], ip);
      case GpioApi(pin, value, outcome) => GpioApiGood(states[k - 1], pin, value, outcome);
      case Discover(key, slot) => DiscoverGood(states[k - 1], key, slot);
    }
  }

  /** The history's word on a BOOT line: a release was attempted since a recovery of the slot last drove it. */
  ghost function Freed(states: seq<System>, moves: seq<Move>, key: string): bool
    requires SystemRun(states, moves)
    decreases |moves|
  {
    if moves == [] then false
    else
      var n := |moves| - 1;
      var before := Freed(states[..n + 1], moves[..n], key);
      match moves[n]
      case SlotMove(k, step) =>
        var s := states[n].slots[k];
        if k != key then before
        else if Releases(s, step) then true
        else if DrivesBoot(s, step) && step.boot == Works then false
        else before
      case _ => before
  }

  lemma FreedByStep(s: Slot, step: Step)
    requires Enabled(s, step)
    ensures Next(s, step).care.freed ==
            if Releases(s, step) then true
            else if DrivesBoot(s, step) && step.boot == Works then false
            else s.care.freed
  {
    CareIsAfter(s, step);
  }

  lemma SystemRunPrefix(states: seq<System>, moves: seq<Move>, n: nat)
    requires SystemRun(states, moves) && n <= |moves|
    ensures SystemRun(states[..n + 1], moves[..n]) && states[..n + 1][n] == states[n]
  {
  }

  ghost predicate FlagIs(sys: System, key: string, freed: bool) {
    if key in sys.slots then sys.slots[key].care.freed == freed else !freed
  }

  lemma {:induction false} FreedIsHistory(states: seq<System>, moves: seq<Move>, key: string)
    requires SystemRun(states, moves)
    ensures FlagIs(states[|states| - 1], key, Freed(states, moves, key))
    decreases |moves|
  {
    if moves != [] {
      var n := |moves| - 1;
      SystemRunPrefix(states, moves, n);
      FreedIsHistory(states[..n + 1], moves[..n], key);
      assert states[n + 1] == After(states[n], moves[n]);
      if moves[n].SlotMove? {
        FreedByStep(states[n].slots[moves[n].key], moves[n].step);
      }
    }
  }

  lemma HeldByFlag(sys: System, key: string, freed: bool)
    requires SystemGood(sys) && key in sys.slots && FlagIs(sys, key, freed)
    requires var s := sys.slots[key];
             s.dev.phase == DownloadMode && s.cfg.gpioBoot.Some? && s.cfg.gpioBoot.value !in sys.touched
    ensures DrivenLow(sys.lines, sys.slots[key].cfg.gpioBoot.value) <==> !freed
  {
    assert sys.touched !! Elements(sys.slots[key].cfg.gpioBoot);
  }

  /**
   * In every run: a slot in download mode has its BOOT line driven low exactly if no release was attempted
   * since the slot's recovery drove it; other slots and other pins play no part. Pins that
   * /api/gpio/set was used on are not spoken of.
   */
  lemma DownloadModeHoldsBoot(states: seq<System>, moves: seq<Move>, key: string)
    requires SystemRun(states, moves) && key in states[|moves|].slots
    requires var s := states[|moves|].slots[key];
             s.dev.phase == DownloadMode && s.cfg.gpioBoot.Some? && s.cfg.gpioBoot.value !in states[|moves|].touched
    ensures DrivenLow(states[|moves|].lines, states[|moves|].slots[key].cfg.gpioBoot.value)
            <==> !Freed(states, moves, key)
  {
    SystemRunGood(states, moves, |moves|);
    FreedIsHistory(states, moves, key);
    HeldByFlag(states[|moves|], key, Freed(states, moves, key));
  }

  // ---- explicit runs ----------------------------------------------------------------

  ghost predicate SystemReachable(sys: System) {
    exists states, moves :: SystemRun(states, moves) && sys == states[|moves|]
  }

  lemma SystemRunExtends(states: seq<System>, moves: seq<Move>, move: Move, next: System)
    requires SystemRun(states, moves) && Possible(states[|moves|], move) && next == After(states[|moves|], move)
    ensures SystemRun(states + [next], moves + [move])
  {
  }

  lemma SystemClosed(sys: System, move: Move, next: System)
    requires SystemReachable(sys) && Possible(sys, move) && next == After(sys, move)
    ensures SystemReachable(next)
  {
    var states, moves :| SystemRun(states, moves) && sys == states[|moves|];
    SystemRunExtends(states, moves, move, next);
    var more, longer := states + [next], moves + [move];
    assert more[|longer|] == next;
  }

  /** A slot alone with its recovery, which stands at one place. */
  predicate Stands(s: Slot, cfg: Config, rescue: Rescue) {
    && s.cfg == cfg && s.care.recovering && s.care.rescues == [rescue] && !s.care.freed
    && s.proxy.lock == Free && !s.proxy.running
  }

  lemma IntoCooldown(s: Slot, cfg: Config)
    requires Stands(s, cfg, Dispatch(None)) && cfg.gpioBoot.Some? && cfg.usbDevice.Some?
    ensures Enabled(s, RescueStep(0, Works, Works))
    ensures Stands(Next(s, RescueStep(0, Works, Works)), cfg, GpioCooldown)
  {
  }

  lemma IntoRebound(s: Slot, cfg: Config)
    requires Stands(s, cfg, GpioCooldown)
    ensures Enabled(s, RescueStep(0, Works, CallFails))
    ensures Stands(Next(s, RescueStep(0, Works, CallFails)), cfg, GpioRebound)
  {
  }

  lemma OutOfRebound(s: Slot, cfg: Config)
    requires Stands(s, cfg, GpioRebound)
    ensures Enabled(s, RescueStep(0, Works, Works))
    ensures var n := Next(s, RescueStep(0, Works, Works));
            n.cfg == cfg && n.dev.phase == DownloadMode && !n.care.freed
  {
  }

  function OneSlot(key: string, s: Slot, lines: Tracked): System { System(map[key := s], lines, "", {}) }

  lemma OneSlotMoves(key: string, s: Slot, lines: Tracked, step: Step) returns (g: Tracked)
    requires SystemReachable(OneSlot(key, s, lines)) && Enabled(s, step) && !step.HostIp? && OutcomesFit(lines, step)
    ensures g == LinesAfter(lines, s, step) && SystemReachable(OneSlot(key, Next(s, step), g))
  {
    g := LinesAfter(lines, s, step);
    assert After(OneSlot(key, s, lines), SlotMove(key, step)) == OneSlot(key, Next(s, step), g);
    SystemClosed(OneSlot(key, s, lines), SlotMove(key, step), OneSlot(key, Next(s, step), g));
  }

  lemma ReachDownloadMode(key: string, cfg: Config) returns (s: Slot, lines: Tracked)
    requires cfg.gpioBoot.Some? && cfg.gpioEn.Some? && cfg.gpioEn != cfg.gpioBoot && cfg.usbDevice.Some?
    ensures SystemReachable(OneSlot(key, s, lines))
    ensures s.cfg == cfg && s.dev.phase == DownloadMode && DrivenLow(lines, cfg.gpioBoot.value)
  {
    var start := OneSlot(key, Fresh(cfg), NO_LINES);
    assert SystemRun([start], []) && [start][0] == start;
    lines := OneSlotMoves(key, Fresh(cfg), NO_LINES, Recover);
    s := Next(Fresh(cfg), Recover);
    IntoCooldown(s, cfg);
    lines := OneSlotMoves(key, s, lines, RescueStep(0, Works, Works));
    s := Next(s, RescueStep(0, Works, Works));
    // the recovery's own EN pulse fails at once in this run
    IntoRebound(s, cfg);
    lines := OneSlotMoves(key, s, lines, RescueStep(0, Works, CallFails));
    s := Next(s, RescueStep(0, Works, CallFails));
    OutOfRebound(s, cfg);
    lines := OneSlotMoves(key, s, lines, RescueStep(0, Works, Works));
    s := Next(s, RescueStep(0, Works, Works));
    ReachableHolds(OneSlot(key, s, lines), key);
  }

  lemma ReachableHolds(sys: System, key: string)
    requires SystemReachable(sys) && key in sys.slots && sys.touched == {}
    ensures Holds(sys.slots[key], sys.lines)
  {
    var states, moves :| SystemRun(states, moves) && sys == states[|moves|];
    SystemRunGood(states, moves, |moves|);
  }

  /**
   * A run that ends in a release, still in download mode, during the EN pulse or because the call raised: BOOT
   * is not held any more.
   */
  lemma ReleaseInDownloadMode(key: string, cfg: Config, boot: Outcome) returns (s: Slot, lines: Tracked)
    requires cfg.gpioBoot.Some? && cfg.gpioEn.Some? && cfg.gpioEn != cfg.gpioBoot && cfg.usbDevice.Some?
    requires boot == Works || boot == CallFails
    ensures SystemReachable(OneSlot(key, s, lines)) && s.cfg == cfg && s.dev.phase == DownloadMode
    ensures !DrivenLow(lines, cfg.gpioBoot.value)
  {
    var held, before := ReachDownloadMode(key, cfg);
    lines := OneSlotMoves(key, held, before, Release(boot, Works));
    OwnBootLine(before, held, Release(boot, Works));
    s := Next(held, Release(boot, Works));
  }

  /** In every run a slot's URL names the current `host_ip` and its port while its proxy is running. */
  lemma RunningUrlIsCurrent(states: seq<System>, moves: seq<Move>, k: nat, key: string)
    requires SystemRun(states, moves) && k < |states| && key in states[k].slots
    requires states[k].slots[key].proxy.running
    ensures var s := states[k].slots[key];
            && CanListen(s.cfg) && s.proxy.pid.Some?
            && s.proxy.url == Some(Url(states[k].hostIp, s.cfg.tcpPort.value))
  {
    SystemRunGood(states, moves, k);
  }
}
