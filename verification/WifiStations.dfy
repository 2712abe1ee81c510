/**
 * The station table and the event queue of pi/wifi_controller.py, under DHCP lease events, radio
 * sections that clear the table, and readers that take events away, in any order.
 */
module WifiStations {
  import opened Common
  import opened Wifi

  /** One call of the dnsmasq lease script. */
  datatype Lease = Lease(action: string, mac: string, ip: string, hostname: string)

  datatype Event = StaConnect(mac: string, ip: string, hostname: Option<string>) | StaDisconnect(mac: string)

  /** `str.lower` on ASCII. */
  function Lower(s: string): (r: string)
    ensures |r| == |s|
  {
    seq(|s|, i requires 0 <= i < |s| => if 'A' <= s[i] <= 'Z' then s[i] + 32 as char else s[i])
  }

  /** The letters A to Z become a to z, and nothing else changes; so doing it again changes nothing. */
  lemma LowerExactly(s: string)
    ensures forall i :: 0 <= i < |s| ==>
              Lower(s)[i] == if s[i] in UPPER then LOWER[s[i] as int - 'A' as int] else s[i]
    ensures Lower(Lower(s)) == Lower(s)
  {
  }

  const UPPER: string := "ABCDEFGHIJKLMNOPQRSTUVWXYZ"
  const LOWER: string := "abcdefghijklmnopqrstuvwxyz"

  predicate Connects(l: Lease) { l.action == "add" || l.action == "old" }

  predicate Disconnects(l: Lease) { l.action == "del" }

  /** The event a lease puts in the queue; other actions put none. */
  function EventOf(l: Lease): seq<Event> {
    if Connects(l) then [StaConnect(Lower(l.mac), l.ip, if l.hostname == "" then None else Some(l.hostname))]
    else if Disconnects(l) then [StaDisconnect(Lower(l.mac))]
    else []
  }

  /** The table, from lower-cased MAC address to IP address. */
  function Noted(stations: map<string, string>, l: Lease): map<string, string> {
    if Connects(l) then stations[Lower(l.mac) := l.ip]
    else if Disconnects(l) then stations - {Lower(l.mac)}
    else stations
  }

  /** Every section goes through `_ap_stop_unlocked` except a leave and the reversal of a failed mode switch. */
  predicate Clears(s: Section) { !s.Leave? && !s.Revert? }

  datatype Happening = Locked(section: Section) | Leased(lease: Lease) | Taken

  datatype Air = Air(stations: map<string, string>, queue: seq<Event>, delivered: seq<Event>)

  function Step(air: Air, h: Happening): Air {
    match h
    case Locked(s) => if Clears(s) then air.(stations := map[]) else air
    case Leased(l) => air.(stations := Noted(air.stations, l), queue := air.queue + EventOf(l))
    case Taken =>
      if air.queue == [] then air else air.(queue := air.queue[1..], delivered := air.delivered + [air.queue[0]])
  }

  /** A leave and the way back from a failed mode switch keep the table; every other section empties it. */
  lemma SectionTold(air: Air, s: Section)
    ensures Step(air, Locked(s)) == if s == Leave || s == Revert then air else Air(map[], air.queue, air.delivered)
  {
  }

  /**
   * What a lease event does, by its action: "add" and "old" note the station's address and announce it with the
   * host name if there is one, "del" strikes it off and announces that, and any other does neither. Stations go
   * by their MAC address in small letters.
   */
  lemma LeaseTold(air: Air, action: string, mac: string, ip: string, hostname: string)
    ensures var n, small := Step(air, Leased(Lease(action, mac, ip, hostname))), Lower(mac);
            && n.delivered == air.delivered
            && (if action == "add" || action == "old" then
                  && n.stations == air.stations[small := ip]
                  && n.queue == air.queue + [StaConnect(small, ip, if |hostname| > 0 then Some(hostname) else None)]
                else if action == "del" then
                  && small !in n.stations && (forall m :: m in air.stations && m != small ==> m in n.stations)
                  && (forall m :: m in n.stations ==> m in air.stations && n.stations[m] == air.stations[m])
                  && n.queue == air.queue + [StaDisconnect(small)]
                else n == air)
  {
    assert air.queue + [] == air.queue;
  }

  function After(history: seq<Happening>): Air {
    if history == [] then Air(map[], [], [])
    else Step(After(history[..|history| - 1]), history[|history| - 1])
  }

  function Lookup(stations: map<string, string>, mac: string): Option<string> {
    if mac in stations then Some(stations[mac]) else None
  }

  /** A station's address by the history: that of its last lease event, if it connected and nothing cleared since. */
  function LastWord(history: seq<Happening>, mac: string): Option<string> {
    if history == [] then None
    else
      var earlier, h := history[..|history| - 1], history[|history| - 1];
      match h
      case Locked(s) => if Clears(s) then None else LastWord(earlier, mac)
      case Leased(l) =>
        if Lower(l.mac) == mac && Connects(l) then Some(l.ip)
        else if Lower(l.mac) == mac && Disconnects(l) then None
        else LastWord(earlier, mac)
      case Taken => LastWord(earlier, mac)
  }

  /** Every event any lease ever put in the queue. */
  function Emitted(history: seq<Happening>): seq<Event> {
    if history == [] then []
    else
      var earlier, h := history[..|history| - 1], history[|history| - 1];
      Emitted(earlier) + (if h.Leased? then EventOf(h.lease) else [])
  }

  lemma {:induction false} TableIsLastWord(history: seq<Happening>, mac: string)
    ensures Lookup(After(history).stations, mac) == LastWord(history, mac)
  {
    if history != [] {
      TableIsLastWord(history[..|history| - 1], mac);
    }
  }

  /** Every event is delivered once and in order, or still waits in the queue; clearing the table loses none. */
  lemma {:induction false} DeliveredOnceInOrder(history: seq<Happening>)
    ensures After(history).delivered + After(history).queue == Emitted(history)
  {
    if history != [] {
      var before, h := After(history[..|history| - 1]), history[|history| - 1];
      DeliveredOnceInOrder(history[..|history| - 1]);
      match h
      case Leased(l) => ConcatAssociates(before.delivered, before.queue, EventOf(l));
      case _ =>
    }
  }

  /** `n` readers in a row. */
  function Takings(n: nat): seq<Happening> { seq(n, _ => Taken) }

  /** As many readers as events wait empty the queue, and then everything ever queued is delivered. */
  lemma {:induction false} ReadersDrain(history: seq<Happening>, n: nat)
    requires n == |After(history).queue|
    ensures After(history + Takings(n)).queue == []
    ensures After(history + Takings(n)).delivered == Emitted(history)
  {
    DrainsBy(history, n);
    DeliveredOnceInOrder(history);
    var air := After(history);
    assert air.queue[n..] == [] && air.queue[..n] == air.queue;
  }

  /** `t` is `air` after `k` of its events were taken. */
  predicate Drained(air: Air, t: Air, k: nat) {
    k <= |air.queue| && t.queue == air.queue[k..] && t.delivered == air.delivered + air.queue[..k]
  }

  lemma OneMore(air: Air, t: Air, k: nat)
    requires Drained(air, t, k) && k < |air.queue|
    ensures Drained(air, Step(t, Taken), k + 1)
  {
    assert air.queue[k..][0] == air.queue[k] && air.queue[..k + 1] == air.queue[..k] + [air.queue[k]];
    ConcatAssociates(air.delivered, air.queue[..k], [air.queue[k]]);
  }

  lemma {:induction false} AfterTakings(history: seq<Happening>, k: nat)
    ensures After(history + Takings(k + 1)) == Step(After(history + Takings(k)), Taken)
  {
    var all := history + Takings(k + 1);
    assert all[..|all| - 1] == history + Takings(k);
  }

  lemma {:induction false} DrainsBy(history: seq<Happening>, k: nat)
    requires k <= |After(history).queue|
    ensures Drained(After(history), After(history + Takings(k)), k)
  {
    if k == 0 {
      assert history + Takings(0) == history;
    } else {
      DrainsBy(history, k - 1);
      AfterTakings(history, k - 1);
      OneMore(After(history), After(history + Takings(k - 1)), k - 1);
    }
  }
}
