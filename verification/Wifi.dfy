/**
 * The access-point, station and mode machine of pi/wifi_controller.py: the lock sections, the
 * complete calls made of them, the station table and the event queue. Whether hostapd, dnsmasq,
 * the association and DHCP succeed is a parameter of each step.
 */
module Wifi {
  import opened Common

  datatype ApConfig = ApConfig(ssid: string, password: string, channel: int)

  datatype Mode = WifiTesting | SerialInterface(ssid: string)

  /** What `_lock` guards. */
  datatype Radio = Radio(ap: Option<ApConfig>, sta: Option<string>, saved: Option<ApConfig>, mode: Mode)

  const START := Radio(None, None, None, WifiTesting)

  // ---- lock sections ----------------------------------------------------------------

  /** One stretch under `_lock`. */
  datatype Section =
    | StartAp(config: ApConfig, up: bool)
    | StopAp
    | Join(ssid: string, joined: bool)
    | Leave
    | EnterSerial(network: string)
    | EnterTesting
    | Revert
    | Halt

  function StopAll(r: Radio): Radio { r.(ap := None, sta := None) }

  function Apply(r: Radio, s: Section): Radio {
    match s
    case StartAp(config, up) => StopAll(r).(ap := if up then Some(config) else None)
    case StopAp => r.(ap := None)
    case Join(ssid, joined) => StopAll(r).(saved := r.ap, sta := if joined then Some(ssid) else None)
    case Leave => r.(sta := None, saved := None)
    case EnterSerial(network) => StopAll(r).(mode := SerialInterface(network))
    case EnterTesting => StopAll(r).(mode := WifiTesting)
    case Revert => r.(mode := WifiTesting)
    case Halt => StopAll(r).(mode := WifiTesting)
  }

  function ApplyAll(r: Radio, sections: seq<Section>): Radio
    decreases |sections|
  {
    if sections == [] then r else ApplyAll(Apply(r, sections[0]), sections[1..])
  }

  predicate OneRole(r: Radio) { r.ap.None? || r.sta.None? }

  lemma {:induction false} RolesKept(r: Radio, sections: seq<Section>)
    requires OneRole(r)
    ensures OneRole(ApplyAll(r, sections))
    decreases |sections|
  {
    if sections != [] {
      RolesKept(Apply(r, sections[0]), sections[1..]);
    }
  }

  /** Whatever calls are made by whatever threads, the access point and the station are never both active. */
  lemma NeverBothRoles(sections: seq<Section>)
    ensures var r := ApplyAll(START, sections); r.ap.None? || r.sta.None?
  {
    RolesKept(START, sections);
  }

  // ---- complete calls ---------------------------------------------------------------

  datatype Call =
    | ApStart(config: ApConfig, up: bool)
    | ApStop
    | StaJoin(ssid: string, joined: bool)
    | StaLeave(restarted: bool)
    | SetMode(wanted: string, network: string, joined: bool)
    | Shutdown

  /** The sections a call goes through when nothing comes between them; none when it is refused. */
  function Sections(r: Radio, c: Call): seq<Section> {
    match c
    case ApStart(config, up) => if r.mode.WifiTesting? then [StartAp(config, up)] else []
    case ApStop => [StopAp]
    case StaJoin(ssid, joined) => if r.mode.WifiTesting? then [Join(ssid, joined)] else []
    case StaLeave(restarted) =>
      if r.saved.Some? && r.mode.WifiTesting? then [Leave, StartAp(r.saved.value, restarted)] else [Leave]
    case SetMode(wanted, network, joined) =>
      if wanted == "serial-interface" then
        if r.mode.SerialInterface? || network == "" then []
        else [EnterSerial(network), Join(network, joined)] + (if joined then [] else [Revert])
      else if wanted == "wifi-testing" && r.mode.SerialInterface? then [EnterTesting]
      else []
    case Shutdown => [Halt]
  }

  function Do(r: Radio, c: Call): Radio { ApplyAll(r, Sections(r, c)) }

  /** The state after a history of complete calls. */
  function After(calls: seq<Call>): Radio {
    if calls == [] then START else Do(After(calls[..|calls| - 1]), calls[|calls| - 1])
  }

  lemma ApplyTwo(r: Radio, a: Section, b: Section)
    ensures ApplyAll(r, [a]) == Apply(r, a)
    ensures ApplyAll(r, [a, b]) == Apply(Apply(r, a), b)
  {
    assert [a][1..] == [] && [a, b][1..] == [b] && [b][1..] == [];
    assert ApplyAll(Apply(r, a), [b]) == Apply(Apply(r, a), b);
  }

  lemma ApplyThree(r: Radio, a: Section, b: Section, c: Section)
    ensures ApplyAll(r, [a, b] + [c]) == Apply(Apply(Apply(r, a), b), c)
  {
    assert ([a, b] + [c])[1..] == [b, c];
    ApplyTwo(Apply(r, a), b, c);
  }

  /** What each complete call makes of the radio. */
  lemma CallEffect(r: Radio, c: Call)
    ensures Do(r, c) ==
      match c
      case ApStart(config, up) =>
        if r.mode.WifiTesting? then Radio(if up then Some(config) else None, None, r.saved, r.mode) else r
      case ApStop => r.(ap := None)
      case StaJoin(ssid, joined) =>
        if r.mode.WifiTesting? then Radio(None, if joined then Some(ssid) else None, r.ap, r.mode) else r
      case StaLeave(restarted) =>
        if r.saved.Some? && r.mode.WifiTesting? then Radio(if restarted then r.saved else None, None, None, r.mode)
        else Radio(r.ap, None, None, r.mode)
      case SetMode(wanted, network, joined) =>
        if wanted == "serial-interface" then
          if r.mode.SerialInterface? || network == "" then r
          else if joined then Radio(None, Some(network), None, SerialInterface(network))
          else START
        else if wanted == "wifi-testing" && r.mode.SerialInterface? then Radio(None, None, r.saved, WifiTesting)
        else r
      case Shutdown => Radio(None, None, r.saved, WifiTesting)
  {
    match c
    case ApStart(config, up) => ApplyTwo(r, StartAp(config, up), Halt);
    case ApStop => ApplyTwo(r, StopAp, Halt);
    case StaJoin(ssid, joined) => ApplyTwo(r, Join(ssid, joined), Halt);
    case StaLeave(restarted) =>
      ApplyTwo(r, Leave, if r.saved.Some? then StartAp(r.saved.value, restarted) else Halt);
    case SetMode(wanted, network, joined) =>
      ApplyTwo(r, EnterSerial(network), Join(network, joined));
      ApplyThree(r, EnterSerial(network), Join(network, joined), Revert);
      ApplyTwo(r, EnterTesting, Halt);
      assert [EnterSerial(network), Join(network, joined)] + [] == [EnterSerial(network), Join(network, joined)];
    case Shutdown => ApplyTwo(r, Halt, Halt);
  }

  /** In serial mode the radio is a station of the mode's own network or nothing, and no access point is remembered. */
  predicate SerialIsStation(r: Radio) {
    r.mode.SerialInterface? ==> r.ap.None? && r.saved.None? && (r.sta.Some? ==> r.sta.value == r.mode.ssid)
  }

  /** Over complete calls, in any order and with any outcomes, serial mode means no access point. */
  lemma {:induction false} SerialModeHasNoAp(calls: seq<Call>)
    ensures SerialIsStation(After(calls))
  {
    if calls != [] {
      var before, c := After(calls[..|calls| - 1]), calls[|calls| - 1];
      SerialModeHasNoAp(calls[..|calls| - 1]);
      CallEffect(before, c);
    }
  }

  // ---- what a leave restores --------------------------------------------------------

  /** The calls that set or clear the remembered access point. */
  predicate Touches(r: Radio, c: Call) {
    || (c.StaJoin? && r.mode.WifiTesting?)
    || c.StaLeave?
    || (c.SetMode? && c.wanted == "serial-interface" && c.network != "" && r.mode.WifiTesting?)
  }

  /** The access point to be restored, by the history: the one active when the last such call was a join. */
  function Remembered(calls: seq<Call>): Option<ApConfig> {
    if calls == [] then None
    else
      var earlier, c := calls[..|calls| - 1], calls[|calls| - 1];
      if !Touches(After(earlier), c) then Remembered(earlier)
      else if c.StaJoin? then After(earlier).ap
      else None
  }

  lemma {:induction false} SavedIsRemembered(calls: seq<Call>)
    ensures After(calls).saved == Remembered(calls)
  {
    if calls != [] {
      SavedIsRemembered(calls[..|calls| - 1]);
      SerialModeHasNoAp(calls[..|calls| - 1]);
      CallEffect(After(calls[..|calls| - 1]), calls[|calls| - 1]);
    }
  }

  /** A leave brings back exactly the remembered access point, or leaves the present one alone if there is none. */
  lemma LeaveRestores(calls: seq<Call>, restarted: bool)
    ensures var t := After(calls + [StaLeave(restarted)]);
            && t.sta == None && t.saved == None
            && t.ap == (if Remembered(calls).None? then After(calls).ap
                        else if restarted then Remembered(calls) else None)
  {
    assert (calls + [StaLeave(restarted)])[..|calls|] == calls;
    SavedIsRemembered(calls);
    SerialModeHasNoAp(calls);
    CallEffect(After(calls), StaLeave(restarted));
  }

  /** Neither joins, nor leaves, nor switches the mode to serial; starting and stopping access points is allowed. */
  predicate Neutral(c: Call) {
    !c.StaJoin? && !c.StaLeave? && !(c.SetMode? && c.wanted == "serial-interface" && c.network != "")
  }

  lemma {:induction false} NeutralKeepsMemory(calls: seq<Call>, between: seq<Call>)
    requires forall i :: 0 <= i < |between| ==> Neutral(between[i])
    ensures Remembered(calls + between) == Remembered(calls)
    decreases |between|
  {
    if between == [] {
      assert calls + between == calls;
    } else {
      var init := between[..|between| - 1];
      NeutralKeepsMemory(calls, init);
      assert (calls + between)[..|calls + between| - 1] == calls + init;
    }
  }

  /** A join from access point C, then any neutral calls, then a leave whose restart succeeds: C is back. */
  lemma JoinThenLeaveRestores(calls: seq<Call>, ssid: string, joined: bool, between: seq<Call>)
    requires After(calls).ap.Some?
    requires forall i :: 0 <= i < |between| ==> Neutral(between[i])
    ensures After(calls + [StaJoin(ssid, joined)] + between + [StaLeave(true)]).ap == After(calls).ap
  {
    SerialModeHasNoAp(calls);
    var joinedCalls := calls + [StaJoin(ssid, joined)];
    assert joinedCalls[..|joinedCalls| - 1] == calls;
    NeutralKeepsMemory(joinedCalls, between);
    LeaveRestores(joinedCalls + between, true);
  }

  /** A second join in a row forgets: the leave after it brings back nothing. */
  lemma SecondJoinForgets(calls: seq<Call>, first: string, joined: bool, second: string, again: bool, restarted: bool)
    requires After(calls).mode.WifiTesting?
    ensures After(calls + [StaJoin(first, joined)] + [StaJoin(second, again)] + [StaLeave(restarted)]).ap == None
  {
    var one := calls + [StaJoin(first, joined)];
    var two := one + [StaJoin(second, again)];
    assert one[..|one| - 1] == calls && two[..|two| - 1] == one;
    CallEffect(After(calls), StaJoin(first, joined));
    CallEffect(After(one), StaJoin(second, again));
    LeaveRestores(two, restarted);
  }
}
