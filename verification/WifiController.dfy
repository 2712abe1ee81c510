/** The module state of pi/wifi_controller.py, changed in place by each call. */
module WifiController {
  import opened Common
  import opened Wifi
  import opened WifiStations

  class Controller {
    var apActive: bool
    var apConfig: ApConfig
    var staActive: bool
    var staSsid: string
    var savedAp: Option<ApConfig>
    var mode: Mode
    var stations: map<string, string>
    var queue: seq<Event>

    function State(): Radio
      reads this
    {
      Radio(if apActive then Some(apConfig) else None, if staActive then Some(staSsid) else None, savedAp, mode)
    }

    constructor ()
      ensures State() == START && stations == map[] && queue == []
    {
      apActive, apConfig, staActive, staSsid := false, ApConfig("", "", 0), false, "";
      savedAp, mode, stations, queue := None, WifiTesting, map[], [];
    }

    // ---- under the lock -------------------------------------------------------------

    method ApStopUnlocked()
      modifies `apActive, `apConfig, `stations
      ensures State() == Apply(old(State()), StopAp) && stations == map[]
    {
      apActive, apConfig := false, ApConfig("", "", 0);
      stations := map[];
    }

    method StaStopUnlocked()
      modifies `staActive, `staSsid
      ensures State() == old(State()).(sta := None)
    {
      staActive, staSsid := false, "";
    }

    method StopAllUnlocked()
      modifies `apActive, `apConfig, `stations, `staActive, `staSsid
      ensures State() == StopAll(old(State())) && stations == map[]
    {
      ApStopUnlocked();
      StaStopUnlocked();
    }

    method StartApLocked(config: ApConfig, up: bool)
      modifies `apActive, `apConfig, `stations, `staActive, `staSsid
      ensures State() == Apply(old(State()), StartAp(config, up)) && stations == map[]
    {
      StopAllUnlocked();
      if up {
        apActive, apConfig := true, config;
        stations := map[];
      }
    }

    method JoinLocked(ssid: string, joined: bool)
      modifies `apActive, `apConfig, `stations, `staActive, `staSsid, `savedAp
      ensures State() == Apply(old(State()), Join(ssid, joined)) && stations == map[]
    {
      if apActive {
        savedAp := Some(apConfig);
      } else {
        savedAp := None;
      }
      StopAllUnlocked();
      if joined {
        staActive, staSsid := true, ssid;
      }
    }

    // ---- complete calls -------------------------------------------------------------

    method ApStart(config: ApConfig, up: bool) returns (ok: bool)
      modifies `apActive, `apConfig, `stations, `staActive, `staSsid
      ensures State() == Do(old(State()), Call.ApStart(config, up))
      ensures ok == (old(mode).WifiTesting? && up)
      ensures stations == if old(mode).WifiTesting? then map[] else old(stations)
    {
      ghost var before := State();
      CallEffect(before, Call.ApStart(config, up));
      if !mode.WifiTesting? {
        return false;
      }
      StartApLocked(config, up);
      ok := up;
    }

    method ApStop()
      modifies `apActive, `apConfig, `stations
      ensures State() == Do(old(State()), Call.ApStop) && stations == map[]
    {
      CallEffect(State(), Call.ApStop);
      ApStopUnlocked();
    }

    method StaJoin(ssid: string, joined: bool) returns (ok: bool)
      modifies `apActive, `apConfig, `stations, `staActive, `staSsid, `savedAp
      ensures State() == Do(old(State()), Call.StaJoin(ssid, joined))
      ensures ok == (old(mode).WifiTesting? && joined)
      ensures stations == if old(mode).WifiTesting? then map[] else old(stations)
    {
      CallEffect(State(), Call.StaJoin(ssid, joined));
      if !mode.WifiTesting? {
        return false;
      }
      JoinLocked(ssid, joined);
      ok := joined;
    }

    /** The remembered access point is forgotten even when its restart is refused or fails. */
    method StaLeave(restarted: bool) returns (ok: bool)
      modifies `apActive, `apConfig, `stations, `staActive, `staSsid, `savedAp
      ensures State() == Do(old(State()), Call.StaLeave(restarted))
      ensures ok == (old(savedAp).None? || (old(mode).WifiTesting? && restarted))
      ensures stations == if old(savedAp).Some? && old(mode).WifiTesting? then map[] else old(stations)
    {
      CallEffect(State(), Call.StaLeave(restarted));
      StaStopUnlocked();
      var saved := savedAp;
      savedAp := None;
      ok := true;
      match saved
      case None =>
      case Some(config) =>
        CallEffect(State(), Call.ApStart(config, restarted));
        ok := ApStart(config, restarted);
    }

    /** The join comes after the lock was given back; a failed one sets the mode back. */
    method SetMode(wanted: string, network: string, joined: bool) returns (ok: bool)
      modifies this
      ensures State() == Do(old(State()), Call.SetMode(wanted, network, joined))
      ensures ok == (wanted == "wifi-testing"
                     || (wanted == "serial-interface" && (old(mode).SerialInterface? || (network != "" && joined))))
      ensures queue == old(queue)
      ensures stations == if (wanted == "serial-interface" && old(mode).WifiTesting? && network != "")
                             || (wanted == "wifi-testing" && old(mode).SerialInterface?)
                          then map[] else old(stations)
    {
      CallEffect(State(), Call.SetMode(wanted, network, joined));
      if wanted != "wifi-testing" && wanted != "serial-interface" {
        return false;
      }
      if wanted == "serial-interface" {
        if mode.SerialInterface? {
          return true;
        }
        if network == "" {
          return false;
        }
        StopAllUnlocked();
        mode := SerialInterface(network);
        JoinLocked(network, joined);
        if !joined {
          mode := WifiTesting;
        }
        ok := joined;
      } else {
        if mode.SerialInterface? {
          StopAllUnlocked();
          mode := WifiTesting;
        }
        ok := true;
      }
    }

    method Shutdown()
      modifies `apActive, `apConfig, `stations, `staActive, `staSsid, `mode
      ensures State() == Do(old(State()), Call.Shutdown) && stations == map[]
    {
      CallEffect(State(), Call.Shutdown);
      StopAllUnlocked();
      mode := WifiTesting;
    }

    // ---- stations and events --------------------------------------------------------

    method HandleLeaseEvent(l: Lease)
      modifies `stations, `queue
      ensures stations == Noted(old(stations), l) && queue == old(queue) + EventOf(l)
    {
      var mac := Lower(l.mac);
      if l.action == "add" || l.action == "old" {
        stations := stations[mac := l.ip];
        queue := queue + [StaConnect(mac, l.ip, if l.hostname != "" then Some(l.hostname) else None)];
      } else if l.action == "del" {
        stations := stations - {mac};
        queue := queue + [StaDisconnect(mac)];
      }
    }

    /** `late` is what other threads put in the queue while a long poll on an empty queue waits. */
    method GetEvents(longPoll: bool, late: seq<Event>) returns (events: seq<Event>)
      modifies `queue
      ensures queue == []
      ensures events == if longPoll && old(queue) == [] then late else old(queue)
    {
      events := [];
      if longPoll && queue == [] {
        queue := late;
        if queue == [] {
          return;
        }
        events, queue := [queue[0]], queue[1..];
      }
      ghost var all := if longPoll && old(queue) == [] then late else old(queue);
      while queue != []
        invariant events + queue == all
        decreases |queue|
      {
        events, queue := events + [queue[0]], queue[1..];
      }
      assert events + [] == events;
    }

    /** No stations are shown while the access point is down. */
    method ApStatus() returns (active: bool, ssid: string, channel: int, shown: map<string, string>)
      ensures active == State().ap.Some?
      ensures active ==> ssid == apConfig.ssid && channel == apConfig.channel && shown == stations
      ensures !active ==> ssid == "" && channel == 0 && shown == map[]
    {
      active := apActive;
      if apActive {
        ssid, channel, shown := apConfig.ssid, apConfig.channel, stations;
      } else {
        ssid, channel, shown := "", 0, map[];
      }
    }
  }
}
