/**
 * The calls of pi/wifi_controller.py interleaved: the mode check of `ap_start` and `sta_join` is
 * made before the lock is taken, the join of `set_mode` after it was given back, and the restart of
 * `sta_leave` is a check and a section of its own. Any number of threads take their turns in any order.
 */
module WifiThreads {
  import opened Common
  import opened Wifi

  /** What a thread in the middle of a call still has to do. */
  datatype Pending =
    | StartChecked(config: ApConfig)
    | JoinChecked(ssid: string)
    | Switched(network: string)
    | JoinFailed
    | Restoring(config: ApConfig)

  /** What happened: a thread passed its mode check, or ran a section under the lock. */
  datatype Entry = Checked(id: nat) | Ran(id: nat, section: Section)

  datatype Net = Net(radio: Radio, threads: map<nat, Pending>, next: nat, log: seq<Entry>)

  const QUIET := Net(START, map[], 0, [])

  datatype Move =
    | CallApStart(config: ApConfig)
    | CallStaJoin(ssid: string)
    | CallSetMode(wanted: string, network: string)
    | CallApStop
    | CallStaLeave
    | CallShutdown
    | Proceed(id: nat, ok: bool)

  function Run(n: Net, id: nat, s: Section): Net { n.(radio := Apply(n.radio, s), log := n.log + [Ran(id, s)]) }

  function PassCheck(n: Net, id: nat, p: Pending): Net {
    n.(threads := n.threads[id := p], log := n.log + [Checked(id)])
  }

  function Gone(n: Net, id: nat): Net { n.(threads := n.threads - {id}) }

  function Fresh(n: Net): Net { n.(next := n.next + 1) }

  /** One move of one thread; refused calls and moves of threads that are not there change nothing. */
  function Step(n: Net, m: Move): Net {
    match m
    case CallApStart(config) =>
      if n.radio.mode.WifiTesting? then Fresh(PassCheck(n, n.next, StartChecked(config))) else n
    case CallStaJoin(ssid) =>
      if n.radio.mode.WifiTesting? then Fresh(PassCheck(n, n.next, JoinChecked(ssid))) else n
    case CallSetMode(wanted, network) =>
      if wanted == "serial-interface" then
        if n.radio.mode.SerialInterface? || network == "" then n
        else Fresh(Run(n, n.next, EnterSerial(network))).(threads := n.threads[n.next := Switched(network)])
      else if wanted == "wifi-testing" && n.radio.mode.SerialInterface? then Fresh(Run(n, n.next, EnterTesting))
      else n
    case CallApStop => Fresh(Run(n, n.next, StopAp))
    case CallStaLeave =>
      var left := Fresh(Run(n, n.next, Leave));
      if n.radio.saved.None? then left else left.(threads := n.threads[n.next := Restoring(n.radio.saved.value)])
    case CallShutdown => Fresh(Run(n, n.next, Halt))
    case Proceed(id, ok) => if id in n.threads then Resume(n, id, n.threads[id], ok) else n
  }

  function Resume(n: Net, id: nat, p: Pending, ok: bool): Net {
    match p
    case StartChecked(config) => Gone(Run(n, id, StartAp(config, ok)), id)
    case JoinChecked(ssid) => Gone(Run(n, id, Join(ssid, ok)), id)
    case Switched(network) =>
      var joined := Run(n, id, Join(network, ok));
      if ok then Gone(joined, id) else joined.(threads := n.threads[id := JoinFailed])
    case JoinFailed => Gone(Run(n, id, Revert), id)
    case Restoring(config) =>
      if n.radio.mode.WifiTesting? then PassCheck(n, id, StartChecked(config)) else Gone(n, id)
  }

  function After(moves: seq<Move>): Net {
    if moves == [] then QUIET else Step(After(moves[..|moves| - 1]), moves[|moves| - 1])
  }

  // ---- reading the log --------------------------------------------------------------

  predicate IsSwitch(x: Entry) { x.Ran? && x.section.EnterSerial? }

  /** Where the latest switch to serial mode stands. */
  function LatestSwitch(log: seq<Entry>): (r: Option<nat>)
    ensures r.Some? ==> r.value < |log| && IsSwitch(log[r.value])
    ensures r.Some? ==> forall k :: r.value < k < |log| ==> !IsSwitch(log[k])
  {
    if log == [] then None
    else if IsSwitch(log[|log| - 1]) then Some(|log| - 1)
    else LatestSwitch(log[..|log| - 1])
  }

  /** Whatever access point was active before is not after this. */
  predicate StopsAp(x: Entry) { x.Ran? && !x.section.Leave? && !x.section.Revert? }

  predicate StopsSta(x: Entry) { x.Ran? && !x.section.StopAp? && !x.section.Revert? }

  predicate StartsAp(x: Entry, config: ApConfig) { x.Ran? && x.section == StartAp(config, true) }

  predicate StartsSta(x: Entry, ssid: string) { x.Ran? && x.section == Join(ssid, true) }

  /** A start of this access point ran at `i`, and nothing stopped it since. */
  ghost predicate ApSince(log: seq<Entry>, i: nat, config: ApConfig) {
    i < |log| && StartsAp(log[i], config) && forall k :: i < k < |log| ==> !StopsAp(log[k])
  }

  ghost predicate StaSince(log: seq<Entry>, i: nat, ssid: string) {
    i < |log| && StartsSta(log[i], ssid) && forall k :: i < k < |log| ==> !StopsSta(log[k])
  }

  /** A start of this access point was checked before the switch at `e`, ran after it, and nothing stopped it since. */
  ghost predicate OvertakenStart(log: seq<Entry>, e: nat, config: ApConfig) {
    exists c: nat, i: nat :: c < e < i && ApSince(log, i, config) && log[c] == Checked(log[i].id)
  }

  /**
   * A join of this network was begun before the switch at `e`, by its check or by an earlier switch, ran after it,
   * and nothing dropped the station since.
   */
  ghost predicate OvertakenJoin(log: seq<Entry>, e: nat, ssid: string) {
    exists c: nat, i: nat :: c < e < i && StaSince(log, i, ssid) && Begins(log[c], log[i].id)
  }

  predicate Begins(x: Entry, id: nat) { x == Checked(id) || (x.id == id && IsSwitch(x)) }

  // ---- the invariant ----------------------------------------------------------------

  ghost predicate BegunBefore(log: seq<Entry>, id: nat, e: nat) {
    exists c: nat :: c < e && c < |log| && Begins(log[c], id)
  }

  ghost predicate CheckedBefore(log: seq<Entry>, id: nat, e: nat) {
    exists c: nat :: c < e && c < |log| && log[c] == Checked(id)
  }

  /** In serial mode the log has the switch to this network, and no check was passed since. */
  ghost predicate ModeTold(r: Radio, log: seq<Entry>) {
    r.mode.SerialInterface? ==>
      var e := LatestSwitch(log);
      && e.Some? && log[e.value].section.network == r.mode.ssid
      && forall k :: e.value < k < |log| ==> !log[k].Checked?
  }

  /** What a pending thread has behind it. */
  ghost predicate ThreadTold(log: seq<Entry>, id: nat, p: Pending) {
    match p
    case StartChecked(_) => CheckedBefore(log, id, |log|)
    case JoinChecked(_) => CheckedBefore(log, id, |log|)
    case Switched(network) => exists c: nat :: c < |log| && log[c] == Ran(id, EnterSerial(network))
    case _ => true
  }

  ghost predicate ThreadsTold(n: Net) {
    forall id :: id in n.threads ==> id < n.next && ThreadTold(n.log, id, n.threads[id])
  }

  /** Since the switch, starts and joins of other networks were run by threads that were begun before it. */
  ghost predicate SinceSwitch(r: Radio, log: seq<Entry>) {
    r.mode.SerialInterface? && LatestSwitch(log).Some? ==>
      var e := LatestSwitch(log).value;
      forall i :: e < i < |log| ==> LateRun(log, e, log[i], r.mode.ssid)
  }

  ghost predicate LateRun(log: seq<Entry>, e: nat, x: Entry, network: string) {
    x.Ran? ==>
      && (x.section.StartAp? ==> CheckedBefore(log, x.id, e))
      && (x.section.Join? && x.section.ssid != network ==> BegunBefore(log, x.id, e))
  }

  function ApOf(log: seq<Entry>): Option<ApConfig> {
    if log == [] then None
    else
      var x := log[|log| - 1];
      if !StopsAp(x) then ApOf(log[..|log| - 1])
      else if x.section.StartAp? && x.section.up then Some(x.section.config)
      else None
  }

  function StaOf(log: seq<Entry>): Option<string> {
    if log == [] then None
    else
      var x := log[|log| - 1];
      if !StopsSta(x) then StaOf(log[..|log| - 1])
      else if x.section.Join? && x.section.joined then Some(x.section.ssid)
      else None
  }

  ghost predicate RadioTold(r: Radio, log: seq<Entry>) { r.ap == ApOf(log) && r.sta == StaOf(log) }

  ghost predicate Good(n: Net) {
    ModeTold(n.radio, n.log) && ThreadsTold(n) && SinceSwitch(n.radio, n.log) && RadioTold(n.radio, n.log)
  }

  lemma SwitchAppend(log: seq<Entry>, x: Entry)
    ensures LatestSwitch(log + [x]) == if IsSwitch(x) then Some(|log|) else LatestSwitch(log)
  {
    assert (log + [x])[..|log|] == log;
  }

  lemma RadioAppend(r: Radio, log: seq<Entry>, id: nat, s: Section)
    requires RadioTold(r, log)
    ensures RadioTold(Apply(r, s), log + [Ran(id, s)])
  {
    assert (log + [Ran(id, s)])[..|log|] == log;
  }

  lemma ThreadAppend(log: seq<Entry>, x: Entry, id: nat, p: Pending)
    requires ThreadTold(log, id, p)
    ensures ThreadTold(log + [x], id, p)
  {
    var more := log + [x];
    match p
    case Switched(network) =>
      var c: nat :| c < |log| && log[c] == Ran(id, EnterSerial(network));
      assert more[c] == log[c];
    case StartChecked(_) => CheckedAppend(log, x, id, |log|);
    case JoinChecked(_) => CheckedAppend(log, x, id, |log|);
    case _ =>
  }

  lemma CheckedAppend(log: seq<Entry>, x: Entry, id: nat, e: nat)
    requires CheckedBefore(log, id, e)
    ensures CheckedBefore(log + [x], id, e) && CheckedBefore(log + [x], id, e + 1)
  {
    var c: nat :| c < e && c < |log| && log[c] == Checked(id);
    assert (log + [x])[c] == log[c];
  }

  lemma BegunAppend(log: seq<Entry>, x: Entry, id: nat, e: nat)
    requires BegunBefore(log, id, e)
    ensures BegunBefore(log + [x], id, e)
  {
    var c: nat :| c < e && c < |log| && Begins(log[c], id);
    assert (log + [x])[c] == log[c];
  }

  lemma LateAppend(log: seq<Entry>, x: Entry, e: nat, y: Entry, network: string)
    requires LateRun(log, e, y, network)
    ensures LateRun(log + [x], e, y, network)
  {
    if y.Ran? {
      if y.section.StartAp? { CheckedAppend(log, x, y.id, e); }
      if y.section.Join? && y.section.ssid != network { BegunAppend(log, x, y.id, e); }
    }
  }

  /** The latest switch stays the latest, and one more late section is put after it. */
  lemma SinceAppend(r: Radio, next: Radio, log: seq<Entry>, x: Entry)
    requires ModeTold(r, log) && SinceSwitch(r, log) && next.mode == r.mode && !IsSwitch(x)
    requires r.mode.SerialInterface? ==> LateRun(log, LatestSwitch(log).value, x, r.mode.ssid) && !x.Checked?
    ensures ModeTold(next, log + [x]) && SinceSwitch(next, log + [x])
  {
    var more := log + [x];
    SwitchAppend(log, x);
    if r.mode.SerialInterface? {
      var e := LatestSwitch(log).value;
      forall i | e < i < |more| ensures LateRun(more, e, more[i], r.mode.ssid) {
        LateAppend(log, x, e, more[i], r.mode.ssid);
      }
    }
  }

  /** A check passed while testing was passed before the switch, if there has been one since. */
  lemma PendingWasBefore(n: Net, id: nat)
    requires Good(n) && id in n.threads && n.radio.mode.SerialInterface?
    ensures var e := LatestSwitch(n.log).value;
            match n.threads[id]
            case StartChecked(_) => CheckedBefore(n.log, id, e)
            case JoinChecked(_) => BegunBefore(n.log, id, e)
            case Switched(network) => network == n.radio.mode.ssid || BegunBefore(n.log, id, e)
            case _ => true
  {
    var e := LatestSwitch(n.log).value;
    assert ThreadTold(n.log, id, n.threads[id]);
    match n.threads[id]
    case StartChecked(_) =>
      var c: nat :| c < |n.log| && n.log[c] == Checked(id);
      assert c < e;
    case JoinChecked(_) =>
      var c: nat :| c < |n.log| && n.log[c] == Checked(id);
      assert c < e && Begins(n.log[c], id);
    case Switched(network) =>
      var c: nat :| c < |n.log| && n.log[c] == Ran(id, EnterSerial(network));
      assert c <= e && Begins(n.log[c], id);
    case _ =>
  }

  lemma ThreadsAppend(n: Net, x: Entry, id: nat)
    requires ThreadsTold(n) && id in n.threads
    ensures id < n.next && ThreadTold(n.log + [x], id, n.threads[id])
  {
    ThreadAppend(n.log, x, id, n.threads[id]);
  }

  lemma AllThreadsAppend(n: Net, x: Entry)
    requires ThreadsTold(n)
    ensures forall id :: id in n.threads ==> id < n.next && ThreadTold(n.log + [x], id, n.threads[id])
  {
    forall id | id in n.threads ensures id < n.next && ThreadTold(n.log + [x], id, n.threads[id]) {
      ThreadsAppend(n, x, id);
    }
  }

  /** A section that does not switch to serial mode, run by a thread that may run it now. */
  lemma RunGood(n: Net, id: nat, s: Section)
    requires Good(n) && !s.EnterSerial?
    requires n.radio.mode.SerialInterface? ==> LateRun(n.log, LatestSwitch(n.log).value, Ran(id, s), n.radio.mode.ssid)
    ensures Good(Run(n, id, s))
  {
    var x := Ran(id, s);
    AllThreadsAppend(n, x);
    RadioAppend(n.radio, n.log, id, s);
    if Apply(n.radio, s).mode == n.radio.mode {
      SinceAppend(n.radio, Apply(n.radio, s), n.log, x);
    }
  }

  lemma SwitchGood(n: Net, network: string)
    requires Good(n)
    ensures var ran := Run(n, n.next, EnterSerial(network));
            Good(Fresh(ran).(threads := n.threads[n.next := Switched(network)]))
  {
    var x := Ran(n.next, EnterSerial(network));
    AllThreadsAppend(n, x);
    RadioAppend(n.radio, n.log, n.next, EnterSerial(network));
    SwitchAppend(n.log, x);
    assert (n.log + [x])[|n.log|] == x;
  }

  lemma CheckGood(n: Net, id: nat, p: Pending)
    requires Good(n) && n.radio.mode.WifiTesting? && (p.StartChecked? || p.JoinChecked?)
    ensures id < n.next ==> Good(PassCheck(n, id, p))
    ensures id == n.next ==> Good(Fresh(PassCheck(n, id, p)))
  {
    var x := Checked(id);
    var more := n.log + [x];
    AllThreadsAppend(n, x);
    assert more[..|n.log|] == n.log && more[|n.log|] == x;
    assert CheckedBefore(more, id, |more|);
  }

  lemma ResumeGood(n: Net, id: nat, ok: bool)
    requires Good(n) && id in n.threads
    ensures Good(Resume(n, id, n.threads[id], ok))
  {
    if n.radio.mode.SerialInterface? {
      PendingWasBefore(n, id);
    }
    match n.threads[id]
    case StartChecked(config) => RunGood(n, id, StartAp(config, ok));
    case JoinChecked(ssid) => RunGood(n, id, Join(ssid, ok));
    case Switched(network) => RunGood(n, id, Join(network, ok));
    case JoinFailed => RunGood(n, id, Revert);
    case Restoring(config) => if n.radio.mode.WifiTesting? { CheckGood(n, id, StartChecked(config)); }
  }

  lemma FreshGood(n: Net)
    requires Good(n)
    ensures Good(Fresh(n))
  {
  }

  /** A call that is one section and no more. */
  lemma OneSectionGood(n: Net, s: Section)
    requires Good(n) && !s.EnterSerial? && !s.StartAp? && !s.Join?
    ensures Good(Fresh(Run(n, n.next, s)))
  {
    RunGood(n, n.next, s);
    FreshGood(Run(n, n.next, s));
  }

  lemma SetModeGood(n: Net, wanted: string, network: string)
    requires Good(n)
    ensures Good(Step(n, CallSetMode(wanted, network)))
  {
    if wanted == "serial-interface" {
      SwitchGood(n, network);
    } else {
      OneSectionGood(n, EnterTesting);
    }
  }

  lemma LeaveGood(n: Net)
    requires Good(n)
    ensures Good(Step(n, CallStaLeave))
  {
    OneSectionGood(n, Leave);
    AllThreadsAppend(n, Ran(n.next, Leave));
  }

  lemma CallGood(n: Net, m: Move)
    requires Good(n) && (m.CallApStart? || m.CallStaJoin?)
    ensures Good(Step(n, m))
  {
    if n.radio.mode.WifiTesting? {
      CheckGood(n, n.next, if m.CallApStart? then StartChecked(m.config) else JoinChecked(m.ssid));
    }
  }

  lemma StepGood(n: Net, m: Move)
    requires Good(n)
    ensures Good(Step(n, m))
  {
    match m
    case CallApStart(_) => CallGood(n, m);
    case CallStaJoin(_) => CallGood(n, m);
    case CallSetMode(wanted, network) => SetModeGood(n, wanted, network);
    case CallApStop => OneSectionGood(n, StopAp);
    case CallStaLeave => LeaveGood(n);
    case CallShutdown => OneSectionGood(n, Halt);
    case Proceed(id, ok) => if id in n.threads { ResumeGood(n, id, ok); }
  }

  lemma {:induction false} AfterGood(moves: seq<Move>)
    ensures Good(After(moves))
  {
    if moves != [] {
      AfterGood(moves[..|moves| - 1]);
      StepGood(After(moves[..|moves| - 1]), moves[|moves| - 1]);
    }
  }

  // ---- what holds over every interleaving -------------------------------------------

  lemma {:induction false} ApOfTells(log: seq<Entry>, config: ApConfig)
    ensures ApOf(log) == Some(config) <==> exists i: nat :: ApSince(log, i, config)
  {
    if log != [] {
      var n := |log| - 1;
      var init := log[..n];
      ApOfTells(init, config);
      if StopsAp(log[n]) {
        assert StartsAp(log[n], config) ==> ApSince(log, n, config);
      } else {
        assert forall i: nat :: i < n ==> (ApSince(init, i, config) <==> ApSince(log, i, config)) by {
          assert forall k :: 0 <= k < n ==> init[k] == log[k];
        }
      }
    }
  }

  lemma {:induction false} StaOfTells(log: seq<Entry>, ssid: string)
    ensures StaOf(log) == Some(ssid) <==> exists i: nat :: StaSince(log, i, ssid)
  {
    if log != [] {
      var n := |log| - 1;
      var init := log[..n];
      StaOfTells(init, ssid);
      if StopsSta(log[n]) {
        assert StartsSta(log[n], ssid) ==> StaSince(log, n, ssid);
      } else {
        assert forall i: nat :: i < n ==> (StaSince(init, i, ssid) <==> StaSince(log, i, ssid)) by {
          assert forall k :: 0 <= k < n ==> init[k] == log[k];
        }
      }
    }
  }

  lemma StartWasOvertaken(n: Net, i: nat, config: ApConfig)
    requires Good(n) && n.radio.mode.SerialInterface? && ApSince(n.log, i, config)
    ensures OvertakenStart(n.log, LatestSwitch(n.log).value, config)
  {
    var e := LatestSwitch(n.log).value;
    assert StopsAp(n.log[e]) && e < i;
    assert LateRun(n.log, e, n.log[i], n.radio.mode.ssid);
    var c: nat :| c < e && n.log[c] == Checked(n.log[i].id);
  }

  lemma JoinWasOvertaken(n: Net, i: nat, ssid: string)
    requires Good(n) && n.radio.mode.SerialInterface? && ssid != n.radio.mode.ssid && StaSince(n.log, i, ssid)
    ensures OvertakenJoin(n.log, LatestSwitch(n.log).value, ssid)
  {
    var e := LatestSwitch(n.log).value;
    assert StopsSta(n.log[e]) && e < i;
    assert LateRun(n.log, e, n.log[i], n.radio.mode.ssid);
    var c: nat :| c < e && Begins(n.log[c], n.log[i].id);
  }

  /**
   * Over every interleaving: in serial mode an access point is active exactly if its start passed the mode
   * check before the latest switch, ran after it, and nothing stopped it since.
   */
  lemma SerialApExactly(moves: seq<Move>, config: ApConfig)
    requires After(moves).radio.mode.SerialInterface?
    ensures var n := After(moves);
            && LatestSwitch(n.log).Some?
            && (n.radio.ap == Some(config) <==> OvertakenStart(n.log, LatestSwitch(n.log).value, config))
  {
    AfterGood(moves);
    var n := After(moves);
    ApOfTells(n.log, config);
    if n.radio.ap == Some(config) {
      var i: nat :| ApSince(n.log, i, config);
      StartWasOvertaken(n, i, config);
    }
  }

  /**
   * Likewise the station is on another network than the mode's exactly if a join of it was begun before the
   * latest switch, by its mode check or by the first half of an earlier set_mode, and ran after it.
   */
  lemma OtherStationExactly(moves: seq<Move>, ssid: string)
    requires var r := After(moves).radio; r.mode.SerialInterface? && ssid != r.mode.ssid
    ensures var n := After(moves);
            && LatestSwitch(n.log).Some?
            && (n.radio.sta == Some(ssid) <==> OvertakenJoin(n.log, LatestSwitch(n.log).value, ssid))
  {
    AfterGood(moves);
    var n := After(moves);
    StaOfTells(n.log, ssid);
    if n.radio.sta == Some(ssid) {
      var i: nat :| StaSince(n.log, i, ssid);
      JoinWasOvertaken(n, i, ssid);
    }
  }

  /** Calls whose moves are not interrupted do what `Wifi.Do` says. */
  lemma AloneIsDo(n: Net, config: ApConfig, ssid: string, ok: bool)
    requires n.threads == map[]
    ensures Step(Step(n, CallApStart(config)), Proceed(n.next, ok)).radio == Do(n.radio, ApStart(config, ok))
    ensures Step(Step(n, CallStaJoin(ssid)), Proceed(n.next, ok)).radio == Do(n.radio, StaJoin(ssid, ok))
    ensures Step(n, CallApStop).radio == Do(n.radio, ApStop)
    ensures Step(n, CallShutdown).radio == Do(n.radio, Shutdown)
  {
    CallEffect(n.radio, ApStart(config, ok));
    CallEffect(n.radio, StaJoin(ssid, ok));
    CallEffect(n.radio, ApStop);
    CallEffect(n.radio, Shutdown);
  }

  lemma LeaveAloneIsDo(n: Net, ok: bool)
    requires n.threads == map[]
    ensures var left := Step(Step(n, CallStaLeave), Proceed(n.next, ok));
            Step(left, Proceed(n.next, ok)).radio == Do(n.radio, StaLeave(ok))
  {
    CallEffect(n.radio, StaLeave(ok));
  }

  lemma SetModeAloneIsDo(n: Net, wanted: string, network: string, ok: bool)
    requires n.threads == map[]
    ensures var switched := Step(Step(n, CallSetMode(wanted, network)), Proceed(n.next, ok));
            Step(switched, Proceed(n.next, ok)).radio == Do(n.radio, SetMode(wanted, network, ok))
  {
    CallEffect(n.radio, SetMode(wanted, network, ok));
  }

  /** A run with an access point in serial mode: the start is checked, a whole set_mode passes, the start runs. */
  lemma StartOvertaken(config: ApConfig, network: string)
    requires network != ""
    ensures var r := After([CallApStart(config), CallSetMode("serial-interface", network),
                            Proceed(1, true), Proceed(0, true)]).radio;
            r.mode == SerialInterface(network) && r.ap == Some(config)
  {
    var a, b := CallApStart(config), CallSetMode("serial-interface", network);
    var moves := [a, b, Proceed(1, true), Proceed(0, true)];
    assert moves[..3] == [a, b, Proceed(1, true)] && moves[..3][..2] == [a, b] && [a, b][..1] == [a] && [a][..0] == [];
    assert After([a]) == Step(QUIET, a);
    assert After([a, b]) == Step(After([a]), b);
    assert After(moves[..3]) == Step(After([a, b]), Proceed(1, true));
  }
}
