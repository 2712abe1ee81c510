/**
 * Storms over whole runs of a slot: how many proxy starts a short stretch can schedule when
 * recoveries clear the window in between, and explicit runs that show the bounds and endings met.
 */
module StormRuns {
  import opened Common
  import opened FlapWindow
  import opened Gpio
  import opened SlotModel
  import opened SlotTheorems
  import opened StormMarks

  /** The starts of one storm: all events but the one that raises the alarm. */
  const MOST_STARTS: nat := 5

  /** The end of a recovery without GPIO forgets the event times. */
  predicate ClearsWindow(s: Slot, step: Step)
    requires Enabled(s, step)
  {
    step.RescueStep? && s.care.rescues[step.i].NoGpioCooldown?
  }

  /** The background starts that the steps from `lo` to `hi` schedule. */
  ghost function StartsBetween(states: seq<Slot>, steps: seq<Step>, lo: nat, hi: nat): nat
    requires Run(states, steps) && lo <= hi <= |steps|
    decreases hi - lo
  {
    if lo == hi then 0
    else StartsBetween(states, steps, lo, hi - 1) + if Schedules(states[hi - 1], steps[hi - 1]) then 1 else 0
  }

  ghost function ClearsBetween(states: seq<Slot>, steps: seq<Step>, lo: nat, hi: nat): nat
    requires Run(states, steps) && lo <= hi <= |steps|
    decreases hi - lo
  {
    if lo == hi then 0
    else ClearsBetween(states, steps, lo, hi - 1) + if ClearsWindow(states[hi - 1], steps[hi - 1]) then 1 else 0
  }

  /** All hotplug events of the stretch fall into the 30 s from `from`. */
  ghost predicate InWindow(steps: seq<Step>, lo: nat, hi: nat, from: real)
    requires lo <= hi <= |steps|
  {
    forall k :: lo <= k < hi && steps[k].Hotplug? ==> from <= steps[k].now < from + FLAP_WINDOW_S
  }

  // ---- the marks of a run -----------------------------------------------------------

  function MarkOf(s: Slot, step: Step): Mark
    requires Enabled(s, step)
  {
    if ClearsWindow(s, step) then Clear(s.flap.clock)
    else if step.Hotplug? && !s.care.recovering then Note(step.now, Schedules(s, step))
    else Quiet
  }

  lemma MarkTellsStart(s: Slot, step: Step)
    requires Good(s) && Enabled(s, step)
    ensures Schedules(s, step) <==> IsStart(MarkOf(s, step))
    ensures ClearsWindow(s, step) <==> MarkOf(s, step).Clear?
  {
    if !step.Hotplug? {
      OnlyHotplugSchedules(s, step);
    }
  }

  lemma HotplugNotes(s: Slot, step: Step)
    requires Enabled(s, step) && step.Hotplug? && !s.care.recovering
    ensures Next(s, step).flap.events == s.flap.events + [Event(step.now, Schedules(s, step))]
  {
  }

  lemma OthersNoteNothing(s: Slot, step: Step)
    requires OneRecovery(s) && Enabled(s, step) && (step.Hotplug? ==> s.care.recovering)
    ensures Next(s, step).flap.events == if ClearsWindow(s, step) then [] else s.flap.events
  {
  }

  lemma MarkTells(s: Slot, step: Step)
    requires Good(s) && Enabled(s, step)
    ensures Next(s, step).flap.events == Play(s.flap.events, MarkOf(s, step))
  {
    if step.Hotplug? && !s.care.recovering {
      HotplugNotes(s, step);
    } else {
      OthersNoteNothing(s, step);
    }
  }

  // ---- the cooldown is slept through ------------------------------------------------

  /** While a recovery sleeps, no event was accepted since it lay down. */
  ghost predicate AsleepSince(s: Slot) {
    forall r :: r in s.care.rescues && r.NoGpioCooldown? ==>
      r.began <= s.flap.clock && forall e :: e in s.flap.events ==> e.at <= r.began
  }

  lemma ClockOfHotplug(s: Slot, step: Step)
    requires Enabled(s, step) && step.Hotplug?
    ensures Next(s, step).flap.clock == step.now
  {
  }

  lemma ClockGoesOn(s: Slot, step: Step)
    requires OneRecovery(s) && Enabled(s, step)
    ensures s.flap.clock <= Next(s, step).flap.clock
    ensures step.Hotplug? ==> Next(s, step).flap.clock == step.now
  {
    if step.Hotplug? {
      ClockOfHotplug(s, step);
    } else if !step.Poll? && !step.Tick? {
      QuietFlap(s, step);
    }
  }

  /** A sleeping recovery was sleeping before, or lies down now. */
  lemma SleepersStay(s: Slot, step: Step, r: Rescue)
    requires OneRecovery(s) && Enabled(s, step) && r in CareAfter(s, step).rescues && r.NoGpioCooldown?
    ensures s.care.recovering && !ClearsWindow(s, step)
    ensures r in s.care.rescues || r.began == s.flap.clock
  {
  }

  lemma AsleepKept(s: Slot, step: Step)
    requires Good(s) && AsleepSince(s) && Enabled(s, step)
    ensures AsleepSince(Next(s, step))
  {
    var n := Next(s, step);
    CareIsAfter(s, step);
    ClockGoesOn(s, step);
    forall r | r in n.care.rescues && r.NoGpioCooldown?
      ensures r.began <= n.flap.clock && forall e :: e in n.flap.events ==> e.at <= r.began
    {
      SleepersStay(s, step, r);
      OthersNoteNothing(s, step);
    }
  }

  lemma {:induction false} RunIsAsleep(states: seq<Slot>, steps: seq<Step>, k: nat)
    requires Run(states, steps) && k < |states|
    ensures AsleepSince(states[k])
  {
    if k > 0 {
      RunIsAsleep(states, steps, k - 1);
      RunIsGood(states, steps, k - 1);
      AsleepKept(states[k - 1], steps[k - 1]);
    }
  }

  /** So a clear comes a whole cooldown after every event it forgets. */
  lemma ClearsLate(s: Slot, step: Step)
    requires AsleepSince(s) && Enabled(s, step) && ClearsWindow(s, step)
    ensures forall e :: e in s.flap.events ==> e.at + FLAP_COOLDOWN_S <= s.flap.clock
  {
    assert s.care.rescues[step.i] in s.care.rescues;
  }

  // ---- a run as marks ---------------------------------------------------------------

  lemma StepIsMarked(s: Slot, step: Step, from: real)
    requires Good(s) && AsleepSince(s) && Enabled(s, step) && Good(Next(s, step))
    requires step.Hotplug? ==> from <= step.now < from + FLAP_WINDOW_S
    ensures StepLeads(s.flap.events, s.flap.clock, MarkOf(s, step), Next(s, step).flap.events,
                      Next(s, step).flap.clock, from)
  {
    MarkTells(s, step);
    ClockGoesOn(s, step);
    if ClearsWindow(s, step) {
      ClearsLate(s, step);
    }
  }

  lemma RunStepLeads(states: seq<Slot>, steps: seq<Step>, k: nat, next: nat, from: real)
    returns (before: Flap, m: Mark, after: Flap)
    requires Run(states, steps) && k < |steps| && next == k + 1
    requires steps[k].Hotplug? ==> from <= steps[k].now < from + FLAP_WINDOW_S
    ensures before == states[k].flap && after == states[next].flap
    ensures StepLeads(before.events, before.clock, m, after.events, after.clock, from)
    ensures (IsStart(m) <==> Schedules(states[k], steps[k])) && (m.Clear? <==> ClearsWindow(states[k], steps[k]))
  {
    RunIsGood(states, steps, k);
    RunIsGood(states, steps, next);
    RunIsAsleep(states, steps, k);
    assert states[next] == Next(states[k], steps[k]);
    StepIsMarked(states[k], steps[k], from);
    MarkTellsStart(states[k], steps[k]);
    before, m, after := states[k].flap, MarkOf(states[k], steps[k]), states[next].flap;
  }

  /** The marks of a stretch tell its starts and its clears. */
  ghost predicate Tells(states: seq<Slot>, steps: seq<Step>, lo: nat, hi: nat, marks: seq<Mark>)
    requires Run(states, steps) && lo <= hi <= |steps|
  {
    && StartsAmong(marks) == StartsBetween(states, steps, lo, hi)
    && ClearsAmong(marks) == ClearsBetween(states, steps, lo, hi)
  }

  lemma TellsOn(states: seq<Slot>, steps: seq<Step>, lo: nat, k: nat, next: nat, marks: seq<Mark>, m: Mark)
    requires Run(states, steps) && lo <= k < |steps| && next == k + 1 && Tells(states, steps, lo, k, marks)
    requires IsStart(m) <==> Schedules(states[k], steps[k])
    requires m.Clear? <==> ClearsWindow(states[k], steps[k])
    ensures Tells(states, steps, lo, next, marks + [m])
  {
    CountsGrow(marks, m);
  }

  /** The marks of a stretch lead from the events before it to those after it, and tell its starts and clears. */
  ghost predicate Marked(states: seq<Slot>, steps: seq<Step>, lo: nat, hi: nat, from: real, marks: seq<Mark>)
    requires Run(states, steps) && lo <= hi <= |steps|
  {
    && Leads(states[lo].flap.events, marks, states[hi].flap.events, states[hi].flap.clock, from)
    && Tells(states, steps, lo, hi, marks)
  }

  lemma MarkedOn(states: seq<Slot>, steps: seq<Step>, lo: nat, k: nat, next: nat, from: real, marks: seq<Mark>)
    returns (more: seq<Mark>)
    requires Run(states, steps) && lo <= k < |steps| && next == k + 1 && Marked(states, steps, lo, k, from, marks)
    requires steps[k].Hotplug? ==> from <= steps[k].now < from + FLAP_WINDOW_S
    ensures Marked(states, steps, lo, next, from, more)
  {
    var before, m, after := RunStepLeads(states, steps, k, next, from);
    LeadsOn(states[lo].flap.events, marks, before.events, before.clock, m, after.events, after.clock, from);
    TellsOn(states, steps, lo, k, next, marks, m);
    more := marks + [m];
  }

  lemma NothingMarked(states: seq<Slot>, steps: seq<Step>, lo: nat, from: real)
    requires Run(states, steps) && lo <= |steps|
    ensures Marked(states, steps, lo, lo, from, [])
  {
    RunIsGood(states, steps, lo);
    LeadsNowhere(states[lo].flap.events, states[lo].flap.clock, from);
  }

  lemma {:induction false} RunIsMarked(states: seq<Slot>, steps: seq<Step>, lo: nat, hi: nat, from: real)
    returns (marks: seq<Mark>)
    requires Run(states, steps) && lo <= hi <= |steps| && InWindow(steps, lo, hi, from)
    ensures Marked(states, steps, lo, hi, from, marks)
    decreases hi
  {
    if lo == hi {
      NothingMarked(states, steps, lo, from);
      marks := [];
    } else {
      marks := RunIsMarked(states, steps, lo, hi - 1, from);
      marks := MarkedOn(states, steps, lo, hi - 1, hi, from, marks);
    }
  }

  /**
   * In any run, the steps whose hotplug events fall into 30 s schedule at most five starts for each clear among
   * them and five more; and at most fifteen however many clears there are.
   */
  lemma StormStartsBounded(states: seq<Slot>, steps: seq<Step>, lo: nat, hi: nat, from: real)
    requires Run(states, steps) && lo <= hi <= |steps| && InWindow(steps, lo, hi, from)
    ensures StartsBetween(states, steps, lo, hi) <= 5 * (1 + ClearsBetween(states, steps, lo, hi))
    ensures StartsBetween(states, steps, lo, hi) <= 15
  {
    var marks := RunIsMarked(states, steps, lo, hi, from);
    MarksBounded(states[lo].flap.events, marks, from);
  }

  lemma BootSlotNeverClears(s: Slot, step: Step)
    requires Good(s) && Enabled(s, step) && s.cfg.gpioBoot.Some?
    ensures !ClearsWindow(s, step)
  {
    if step.RescueStep? {
      assert s.care.rescues[step.i] in s.care.rescues;
    }
  }

  lemma BootRunStepsOn(states: seq<Slot>, steps: seq<Step>, k: nat) returns (s: Slot, step: Step)
    requires Run(states, steps) && k < |steps| && states[0].cfg.gpioBoot.Some?
    ensures s == states[k] && step == steps[k] && !ClearsWindow(s, step)
  {
    s, step := states[k], steps[k];
    RunIsGood(states, steps, k);
    RecoverCallsCounted(states, steps, k);
    BootSlotNeverClears(s, step);
  }

  lemma {:induction false} NoClears(states: seq<Slot>, steps: seq<Step>, lo: nat, hi: nat)
    requires Run(states, steps) && lo <= hi <= |steps| && states[0].cfg.gpioBoot.Some?
    ensures ClearsBetween(states, steps, lo, hi) == 0
    decreases hi
  {
    if lo < hi {
      NoClears(states, steps, lo, hi - 1);
      var s, step := BootRunStepsOn(states, steps, hi - 1);
    }
  }

  /** So 30 s schedule at most five starts on a slot with a BOOT pin, and at most fifteen on one without. */
  lemma StormStartsCounted(states: seq<Slot>, steps: seq<Step>, lo: nat, hi: nat, from: real)
    requires Run(states, steps) && lo <= hi <= |steps| && InWindow(steps, lo, hi, from)
    ensures StartsBetween(states, steps, lo, hi) <= if states[0].cfg.gpioBoot.Some? then 5 else 15
  {
    StormStartsBounded(states, steps, lo, hi, from);
    if states[0].cfg.gpioBoot.Some? {
      NoClears(states, steps, lo, hi);
    }
  }

  // ---- explicit runs ----------------------------------------------------------------

  /** A slot at rest: the six fields that decide what the next events do. */
  predicate AtRest(s: Slot, cfg: Config, retries: nat, times: seq<real>) {
    && s.cfg == cfg && s.care.rescues == [] && !s.care.recovering && s.care.retries == retries
    && !s.flap.flapping && s.flap.eventTimes == times
    && s.proxy.lock == Free && !s.proxy.running
  }

  /** A slot without GPIO whose recovery thread is about to read the counter. */
  predicate Rescued(s: Slot, cfg: Config, retries: nat) {
    && s.cfg == cfg && s.care.rescues == [NoGpioReady] && s.care.recovering && s.care.retries == retries
    && s.care.usb == Unbound && s.proxy.lock == Free && !s.proxy.running
  }

  /** A slot whose recovery thread sleeps through its cooldown. */
  predicate Cooling(s: Slot, cfg: Config, retry: nat, began: real) {
    && s.cfg == cfg && s.care.rescues == [NoGpioCooldown(retry, began)] && s.care.recovering
    && s.proxy.lock == Free && !s.proxy.running
  }

  lemma ReadsCounter(s: Slot, cfg: Config, retries: nat)
    requires Rescued(s, cfg, retries) && retries < FLAP_MAX_RETRIES
    ensures Enabled(s, WAKE) && Cooling(Next(s, WAKE), cfg, retries, s.flap.clock) && !Schedules(s, WAKE)
    ensures Next(s, WAKE).flap.clock == s.flap.clock
  {
  }

  lemma GivesUpAtThree(s: Slot, cfg: Config)
    requires Rescued(s, cfg, FLAP_MAX_RETRIES)
    ensures Enabled(s, WAKE) && Next(s, WAKE).cfg == cfg && !Next(s, WAKE).care.recovering
    ensures Next(s, WAKE).care.usb == Unbound && Next(s, WAKE).care.ending == RetriesExhausted
  {
  }

  lemma Sleeps(s: Slot, cfg: Config, retry: nat, began: real, now: real)
    requires Cooling(s, cfg, retry, began) && s.flap.clock <= now
    ensures Enabled(s, Tick(now)) && Cooling(Next(s, Tick(now)), cfg, retry, began) && !Schedules(s, Tick(now))
    ensures Next(s, Tick(now)).flap.clock == now
  {
  }

  lemma EndsCooldown(s: Slot, cfg: Config, retry: nat, began: real)
    requires Cooling(s, cfg, retry, began) && began + FLAP_COOLDOWN_S <= s.flap.clock
    ensures Enabled(s, WAKE) && AtRest(Next(s, WAKE), cfg, retry + 1, []) && !Schedules(s, WAKE)
    ensures Next(s, WAKE).flap.clock == s.flap.clock
  {
  }

  function Ticks(t: real, n: nat): seq<real> { seq(n, _ => t) }

  lemma {:induction false} RecentTicks(t: real, n: nat)
    ensures Recent(Ticks(t, n), t) == Ticks(t, n)
  {
    if n > 0 {
      assert Ticks(t, n)[..n - 1] == Ticks(t, n - 1);
      RecentTicks(t, n - 1);
      assert Ticks(t, n - 1) + [t] == Ticks(t, n);
    }
  }

  function Plug(t: real): Step { Hotplug(Add, "tty", 0, t) }

  /** A slot whose handler waits for the lock to start a recovery. */
  predicate Alarmed(s: Slot, cfg: Config, retries: nat) {
    && s.cfg == cfg && s.care.rescues == [Dispatch(Some(Rest(Add, "tty")))] && s.care.recovering
    && s.care.retries == retries && s.flap.flapping && s.proxy.lock == Free && !s.proxy.running
  }

  lemma NotesEvent(s: Slot, cfg: Config, retries: nat, t: real, n: nat)
    requires AtRest(s, cfg, retries, Ticks(t, n)) && s.flap.clock <= t && n + 1 < FLAP_THRESHOLD && cfg.tcpPort.Some?
    ensures AtRest(Next(s, Plug(t)), cfg, retries, Ticks(t, n + 1)) && Next(s, Plug(t)).flap.clock == t
    ensures Schedules(s, Plug(t))
  {
    assert Ticks(t, n) + [t] == Ticks(t, n + 1);
    RecentTicks(t, n + 1);
  }

  lemma StartsRecovery(s: Slot, cfg: Config, retries: nat, t: real)
    requires AtRest(s, cfg, retries, Ticks(t, MOST_STARTS)) && s.flap.clock <= t
    ensures Alarmed(Next(s, Plug(t)), cfg, retries) && Next(s, Plug(t)).flap.clock == t && !Schedules(s, Plug(t))
  {
    assert Ticks(t, MOST_STARTS) + [t] == Ticks(t, FLAP_THRESHOLD);
    RecentTicks(t, FLAP_THRESHOLD);
  }

  lemma Dispatches(s: Slot, cfg: Config, retries: nat)
    requires Alarmed(s, cfg, retries) && cfg.gpioBoot.None? && cfg.usbDevice.Some?
    ensures Enabled(s, WAKE) && Rescued(Next(s, WAKE), cfg, retries) && !Schedules(s, WAKE)
    ensures Next(s, WAKE).flap.clock == s.flap.clock
  {
  }

  /** A run with what is counted about it. */
  datatype Trace = Trace(states: seq<Slot>, steps: seq<Step>)

  function Last(tr: Trace): Slot
    requires |tr.states| == |tr.steps| + 1
  {
    tr.states[|tr.steps|]
  }

  ghost predicate Legal(tr: Trace) { Run(tr.states, tr.steps) }

  ghost function Starts(tr: Trace): nat
    requires Legal(tr)
  {
    StartsBetween(tr.states, tr.steps, 0, |tr.steps|)
  }

  /** A step of a run without manual calls, whose hotplug events lie between two times. */
  predicate Plain(step: Step, from: real, to: real) {
    !step.Recover? && (step.Hotplug? ==> from <= step.now <= to)
  }

  ghost predicate AllPlain(steps: seq<Step>, from: real, to: real) {
    forall k :: 0 <= k < |steps| ==> Plain(steps[k], from, to)
  }

  lemma {:induction false} StartsOfPrefix(states: seq<Slot>, steps: seq<Step>, more: seq<Slot>, longer: seq<Step>,
                                          k: nat)
    requires Run(states, steps) && Run(more, longer) && states <= more && steps <= longer && k <= |steps|
    ensures StartsBetween(more, longer, 0, k) == StartsBetween(states, steps, 0, k)
  {
    if k > 0 {
      StartsOfPrefix(states, steps, more, longer, k - 1);
    }
  }

  /** One step more; `started` says whether it schedules a start. */
  lemma Extend(tr: Trace, step: Step, next: Slot, started: nat, from: real, to: real) returns (r: Trace)
    requires Legal(tr) && Enabled(Last(tr), step) && next == Next(Last(tr), step)
    requires started == if Schedules(Last(tr), step) then 1 else 0
    requires AllPlain(tr.steps, from, to) && Plain(step, from, to)
    ensures Legal(r) && Last(r) == next && AllPlain(r.steps, from, to)
    ensures r.states[0] == tr.states[0] && Starts(r) == Starts(tr) + started
  {
    RunExtends(tr.states, tr.steps, step);
    r := Trace(tr.states + [next], tr.steps + [step]);
    StartsOfPrefix(tr.states, tr.steps, r.states, r.steps, |tr.steps|);
  }

  /** The run so far: legal, plain, of this slot, with so many starts and its clock at or before a time. */
  ghost predicate SoFar(tr: Trace, cfg: Config, starts: nat, now: real, from: real, to: real) {
    && Legal(tr) && tr.states[0].cfg == cfg && AllPlain(tr.steps, from, to)
    && Starts(tr) == starts && Last(tr).flap.clock <= now
  }

  /** Up to five events at one time leave the slot at rest; each "add" schedules a start. */
  lemma {:induction false} Pelt(tr: Trace, cfg: Config, retries: nat, starts: nat, t: real, n: nat,
                                from: real, to: real)
    returns (r: Trace)
    requires SoFar(tr, cfg, starts, t, from, to) && AtRest(Last(tr), cfg, retries, [])
    requires n < FLAP_THRESHOLD && cfg.tcpPort.Some? && from <= t <= to
    ensures SoFar(r, cfg, starts + n, t, from, to) && AtRest(Last(r), cfg, retries, Ticks(t, n))
  {
    r := tr;
    if n > 0 {
      r := Pelt(tr, cfg, retries, starts, t, n - 1, from, to);
      NotesEvent(Last(r), cfg, retries, t, n - 1);
      r := Extend(r, Plug(t), Next(Last(r), Plug(t)), 1, from, to);
    }
  }

  /** One storm, and the recovery it starts up to the reading of the counter. */
  lemma Storm(tr: Trace, cfg: Config, retries: nat, starts: nat, t: real, from: real, to: real) returns (r: Trace)
    requires SoFar(tr, cfg, starts, t, from, to) && AtRest(Last(tr), cfg, retries, [])
    requires cfg.tcpPort.Some? && cfg.gpioBoot.None? && cfg.usbDevice.Some? && from <= t <= to
    ensures SoFar(r, cfg, starts + MOST_STARTS, t, from, to) && Rescued(Last(r), cfg, retries)
  {
    r := Pelt(tr, cfg, retries, starts, t, MOST_STARTS, from, to);
    StartsRecovery(Last(r), cfg, retries, t);
    r := Extend(r, Plug(t), Next(Last(r), Plug(t)), 0, from, to);
    Dispatches(Last(r), cfg, retries);
    r := Extend(r, WAKE, Next(Last(r), WAKE), 0, from, to);
  }

  /** The recovery sleeps through its cooldown and ends with the slot at rest again. */
  lemma Recuperate(tr: Trace, cfg: Config, retries: nat, starts: nat, upTo: real, now: real, from: real, to: real)
    returns (r: Trace)
    requires SoFar(tr, cfg, starts, upTo, from, to) && upTo + FLAP_COOLDOWN_S <= now
    requires Rescued(Last(tr), cfg, retries) && retries < FLAP_MAX_RETRIES
    ensures SoFar(r, cfg, starts, now, from, to) && AtRest(Last(r), cfg, retries + 1, [])
  {
    var began := Last(tr).flap.clock;
    ReadsCounter(Last(tr), cfg, retries);
    r := Extend(tr, WAKE, Next(Last(tr), WAKE), 0, from, to);
    Sleeps(Last(r), cfg, retries, began, now);
    r := Extend(r, Tick(now), Next(Last(r), Tick(now)), 0, from, to);
    EndsCooldown(Last(r), cfg, retries, began);
    r := Extend(r, WAKE, Next(Last(r), WAKE), 0, from, to);
  }

  lemma FromFresh(cfg: Config, from: real, to: real) returns (tr: Trace)
    ensures SoFar(tr, cfg, 0, 1.0, from, to) && AtRest(Last(tr), cfg, 0, [])
  {
    tr := Trace([Fresh(cfg)], []);
  }

  /** Two storms and two recoveries, eleven seconds apart at most. */
  lemma TwoStorms(cfg: Config) returns (tr: Trace)
    requires cfg.tcpPort.Some? && cfg.gpioBoot.None? && cfg.usbDevice.Some?
    ensures SoFar(tr, cfg, 10, 21.0, 1.0, 21.0) && AtRest(Last(tr), cfg, 2, [])
  {
    tr := FromFresh(cfg, 1.0, 21.0);
    tr := Storm(tr, cfg, 0, 0, 1.0, 1.0, 21.0);
    tr := Recuperate(tr, cfg, 0, 5, 1.0, 11.0, 1.0, 21.0);
    tr := Storm(tr, cfg, 1, 5, 11.0, 1.0, 21.0);
    tr := Recuperate(tr, cfg, 1, 10, 11.0, 21.0, 1.0, 21.0);
  }

  lemma {:induction false} NoRecoverCalls(steps: seq<Step>, from: real, to: real)
    requires AllPlain(steps, from, to)
    ensures RecoverCalls(steps) == 0
  {
    if steps != [] {
      NoRecoverCalls(steps[..|steps| - 1], from, to);
    }
  }

  /** Fifteen is met: a run without manual calls that schedules fifteen starts within twenty seconds. */
  lemma FifteenStartsInTwentySeconds(cfg: Config) returns (states: seq<Slot>, steps: seq<Step>)
    requires cfg.tcpPort.Some? && cfg.gpioBoot.None? && cfg.usbDevice.Some?
    ensures Run(states, steps) && states[0].cfg == cfg && RecoverCalls(steps) == 0
    ensures forall k :: 0 <= k < |steps| && steps[k].Hotplug? ==> 1.0 <= steps[k].now <= 21.0
    ensures StartsBetween(states, steps, 0, |steps|) == 15
  {
    var tr := TwoStorms(cfg);
    tr := Pelt(tr, cfg, 2, 10, 21.0, MOST_STARTS, 1.0, 21.0);
    states, steps := tr.states, tr.steps;
    NoRecoverCalls(steps, 1.0, 21.0);
    assert forall k :: 0 <= k < |steps| ==> Plain(steps[k], 1.0, 21.0);
  }

  lemma TraceReaches(tr: Trace)
    requires Legal(tr)
    ensures Reachable(Last(tr))
  {
    assert Last(tr) == tr.states[|tr.states| - 1];
  }

  /** A run without manual calls in which the third recovery gives up and leaves USB unbound. */
  lemma GivingUpLeavesUnbound(cfg: Config) returns (s: Slot)
    requires cfg.tcpPort.Some? && cfg.gpioBoot.None? && cfg.usbDevice.Some?
    ensures Reachable(s) && s.cfg == cfg && !s.care.recovering && s.care.recoverCalls == 0
    ensures s.care.usb == Unbound && s.care.ending == RetriesExhausted
  {
    var tr := TwoStorms(cfg);
    tr := Storm(tr, cfg, 2, 10, 21.0, 1.0, 21.0);
    GivesUpAtThree(Last(tr), cfg);
    tr := Extend(tr, WAKE, Next(Last(tr), WAKE), if Schedules(Last(tr), WAKE) then 1 else 0, 1.0, 21.0);
    s := Last(tr);
    TraceReaches(tr);
    NoRecoverCalls(tr.steps, 1.0, 21.0);
    RecoverCallsCounted(tr.states, tr.steps, |tr.steps|);
    assert tr.steps[..|tr.steps|] == tr.steps;
  }

  lemma BootCannotBeDriven(s0: Slot, cfg: Config) returns (s3: Slot)
    requires s0 == Fresh(cfg) && cfg.gpioBoot.Some? && cfg.usbDevice.Some?
    ensures Enabled(s0, Recover)
    ensures var s1 := Next(s0, Recover);
            Enabled(s1, WAKE) && var s2 := Next(s1, WAKE);
            Enabled(s2, RescueStep(0, OpenFails, Works)) && s3 == Next(s2, RescueStep(0, OpenFails, Works))
    ensures s3.cfg == cfg && !s3.care.recovering && s3.care.usb == Unbound && s3.care.ending == BootDriveFailed
  {
    var s1 := Next(s0, Recover);
    assert s1.care.rescues == [Dispatch(None)];
    var s2 := Next(s1, WAKE);
    assert s2.care.rescues == [GpioCooldown];
    s3 := Next(s2, RescueStep(0, OpenFails, Works));
  }

  /** A run in which BOOT cannot be driven and USB is left unbound. */
  lemma BootFailureLeavesUnbound(cfg: Config) returns (s: Slot)
    requires cfg.gpioBoot.Some? && cfg.usbDevice.Some?
    ensures Reachable(s) && s.cfg == cfg && !s.care.recovering
    ensures s.care.usb == Unbound && s.care.ending == BootDriveFailed
  {
    s := BootCannotBeDriven(Fresh(cfg), cfg);
    InitialIsReachable(Fresh(cfg));
    ReachableClosed(Fresh(cfg), Recover);
    ReachableClosed(Next(Fresh(cfg), Recover), WAKE);
    ReachableClosed(Next(Next(Fresh(cfg), Recover), WAKE), RescueStep(0, OpenFails, Works));
  }
}
