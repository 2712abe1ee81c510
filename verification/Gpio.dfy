/**
 * The GPIO line tracker of pi/portal.py: which line requests the portal holds,
 * beside the hardware's own table of live requests.
 */
module Gpio {
  import opened Common

  type Pin = nat
  type Handle = nat

  datatype Direction = Input | Output
  datatype Level = Low | High
  datatype Setting = Drive(level: Level) | HighZ

  /**
   * How a `_gpio_set` call ends: it works, the chip cannot be opened, or the line call itself raises. The
   * chip is opened once, so the second can happen only before that.
   */
  datatype Outcome = Works | OpenFails | CallFails

  datatype Line = Line(pin: Pin, direction: Direction, level: Level)

  /** `requests` and `directions` are the portal's tables; `live` is what the kernel holds. */
  datatype Lines = Lines(
    chipOpen: bool,
    requests: map<Pin, Handle>,
    directions: map<Pin, Direction>,
    live: map<Handle, Line>,
    nextHandle: Handle)

  const NO_LINES := Lines(false, map[], map[], map[], 0)

  predicate Held(live: map<Handle, Line>, pin: Pin) {
    exists h :: h in live && live[h].pin == pin
  }

  /** The tracker and the hardware tell the same story, one live request for each tracked pin. */
  ghost predicate Agrees(g: Lines) {
    && (forall p :: p in g.requests ==>
          && g.requests[p] in g.live
          && p in g.directions
          && g.live[g.requests[p]].pin == p
          && g.live[g.requests[p]].direction == g.directions[p])
    && (forall h :: h in g.live ==>
          && h < g.nextHandle
          && g.live[h].pin in g.requests
          && g.requests[g.live[h].pin] == h)
    && (g.requests != map[] ==> g.chipOpen)
  }

  /** The live line request the portal holds for a pin. */
  function LineOf(g: Lines, pin: Pin): Option<Line> {
    if pin in g.requests && g.requests[pin] in g.live then Some(g.live[g.requests[pin]]) else None
  }

  predicate DrivenLow(g: Lines, pin: Pin) { LineOf(g, pin) == Some(Line(pin, Output, Low)) }

  /** Give the line back and forget it. */
  function Drop(g: Lines, pin: Pin): Lines {
    if pin in g.requests then
      g.(requests := g.requests - {pin}, live := g.live - {g.requests[pin]})
    else g
  }

  lemma DropFrees(g: Lines, pin: Pin)
    requires Agrees(g)
    ensures Agrees(Drop(g, pin)) && !Held(Drop(g, pin).live, pin)
  {
  }

  /** Ask the kernel for a line; a line that is already held cannot be asked for. */
  function Request(g: Lines, pin: Pin, direction: Direction, level: Level): Lines
    requires !Held(g.live, pin)
  {
    g.(requests := g.requests[pin := g.nextHandle],
       directions := g.directions[pin := direction],
       live := g.live[g.nextHandle := Line(pin, direction, level)],
       nextHandle := g.nextHandle + 1)
  }

  predicate NeedsRequest(g: Lines, pin: Pin, value: Setting) {
    value.HighZ? || pin !in g.requests || (pin in g.directions && g.directions[pin] == Input)
  }

  /** The outcome can happen in this state. */
  predicate Fits(g: Lines, outcome: Outcome) { outcome == OpenFails ==> !g.chipOpen }

  /** Whether the chip could be opened does not matter once it is open. */
  function Actual(g: Lines, outcome: Outcome): Outcome { if Fits(g, outcome) then outcome else Works }

  /** The effect of one `_gpio_set` call. */
  function SetLine(g: Lines, pin: Pin, value: Setting, outcome: Outcome): (r: Lines)
    requires Agrees(g)
    ensures Agrees(r)
  {
    if Actual(g, outcome) == OpenFails then g
    else
      var ready := g.(chipOpen := true);
      if NeedsRequest(g, pin, value) then
        var dropped := Drop(ready, pin);
        DropFrees(ready, pin);
        if outcome == CallFails then dropped
        else Request(dropped, pin, if value.HighZ? then Input else Output,
                     if value.HighZ? then High else value.level)
      else if outcome == CallFails then ready
      else
        var h := ready.requests[pin];
        ready.(live := ready.live[h := ready.live[h].(level := value.level)],
                directions := ready.directions[pin := Output])
  }

  datatype Call = Call(pin: Pin, value: Setting, outcome: Outcome)

  ghost function AfterCalls(g: Lines, calls: seq<Call>): Lines
    requires Agrees(g)
    decreases |calls|
  {
    if calls == [] then g
    else AfterCalls(SetLine(g, calls[0].pin, calls[0].value, calls[0].outcome), calls[1..])
  }

  /**
   * After any calls, including ones that raise half way: the kernel holds exactly one live
   * request for every tracked pin, none for any other, and its direction is the tracked one.
   */
  lemma {:induction false} TrackerAgreesWithHardware(calls: seq<Call>, pin: Pin)
    ensures var g := AfterCalls(NO_LINES, calls);
            && (pin in g.requests <==> Held(g.live, pin))
            && (pin in g.requests ==> pin in g.directions && g.requests[pin] in g.live
                                      && g.live[g.requests[pin]].direction == g.directions[pin])
            && (forall h, k :: h in g.live && k in g.live && g.live[h].pin == g.live[k].pin ==> h == k)
  {
    CallsAgree(NO_LINES, calls);
  }

  lemma {:induction false} CallsAgree(g: Lines, calls: seq<Call>)
    requires Agrees(g)
    ensures Agrees(AfterCalls(g, calls))
    decreases |calls|
  {
    if calls != [] {
      CallsAgree(SetLine(g, calls[0].pin, calls[0].value, calls[0].outcome), calls[1..]);
    }
  }

  /** A call that works leaves the line exactly as asked. */
  lemma SetReaches(g: Lines, pin: Pin, value: Setting)
    requires Agrees(g)
    ensures var r := SetLine(g, pin, value, Works);
            && LineOf(r, pin) == Some(if value.HighZ? then Line(pin, Input, High) else Line(pin, Output, value.level))
            && (DrivenLow(r, pin) <==> value == Drive(Low))
  {
  }

  /** An attempt to let a line go, however it ends, does not leave it driven low: a held line means an open chip. */
  lemma LettingGo(g: Lines, pin: Pin, outcome: Outcome)
    requires Agrees(g)
    ensures !DrivenLow(SetLine(g, pin, HighZ, outcome), pin)
  {
  }

  /**
   * A call that raises: nothing has happened if the chip could not be opened. Else a line that was driven
   * and was to be driven again stays as it was, and any other has been given back and not taken again.
   */
  lemma FailedCall(g: Lines, pin: Pin, value: Setting, outcome: Outcome)
    requires Agrees(g) && Fits(g, outcome) && outcome != Works
    ensures var before, after := LineOf(g, pin), LineOf(SetLine(g, pin, value, outcome), pin);
            if outcome == OpenFails then SetLine(g, pin, value, outcome) == g
            else if value.Drive? && before.Some? && before.value.direction == Output then after == before
            else after == None
  {
  }

  /** No call on one pin changes the line of another: not whether it is held, its direction or its level. */
  lemma SetLeavesOthers(g: Lines, pin: Pin, value: Setting, outcome: Outcome, other: Pin)
    requires Agrees(g) && pin != other
    ensures LineOf(SetLine(g, pin, value, outcome), other) == LineOf(g, other)
  {
  }

  /** gpiod's side: hands out line requests and refuses none it should not be asked for. */
  class Chip {
    var live: map<Handle, Line>
    var nextHandle: Handle

    constructor ()
      ensures live == map[] && nextHandle == 0
    {
      live, nextHandle := map[], 0;
    }

    method RequestLines(pin: Pin, direction: Direction, level: Level) returns (h: Handle)
      requires !Held(live, pin)
      modifies this
      ensures h == old(nextHandle) && nextHandle == h + 1
      ensures live == old(live)[h := Line(pin, direction, level)]
    {
      h := nextHandle;
      live := live[h := Line(pin, direction, level)];
      nextHandle := nextHandle + 1;
    }

    method Release(h: Handle)
      requires h in live
      modifies this`live
      ensures live == old(live) - {h}
    {
      live := live - {h};
    }

    method SetValue(h: Handle, level: Level)
      requires h in live
      modifies this`live
      ensures live == old(live)[h := old(live)[h].(level := level)]
    {
      live := live[h := live[h].(level := level)];
    }
  }

  /** The module globals `_gpio_chip`, `_gpio_requests` and `_gpio_directions`. */
  class Tracker {
    const chip: Chip
    var chipOpen: bool
    var requests: map<Pin, Handle>
    var directions: map<Pin, Direction>

    ghost function View(): Lines
      reads this, chip
    {
      Lines(chipOpen, requests, directions, chip.live, chip.nextHandle)
    }

    constructor ()
      ensures View() == NO_LINES && Agrees(View()) && fresh(chip)
    {
      chip := new Chip();
      chipOpen, requests, directions := false, map[], map[];
    }

    method ReleaseLine(pin: Pin)
      requires Agrees(View())
      modifies this`requests, chip`live
      ensures View() == Drop(old(View()), pin) && Agrees(View()) && !Held(chip.live, pin)
    {
      DropFrees(View(), pin);
      if pin in requests {
        chip.Release(requests[pin]);
        requests := requests - {pin};
      }
    }

    method RequestLine(pin: Pin, direction: Direction, level: Level)
      requires !Held(chip.live, pin)
      modifies this`requests, this`directions, chip
      ensures View() == Request(old(View()), pin, direction, level)
    {
      var h := chip.RequestLines(pin, direction, level);
      requests := requests[pin := h];
      directions := directions[pin := direction];
    }

    /** Release the line if held, then ask for it afresh; `ok` is false when the call raised. */
    method Renew(pin: Pin, direction: Direction, level: Level, outcome: Outcome) returns (ok: bool)
      requires Agrees(View())
      modifies this`requests, this`directions, chip
      ensures ok <==> outcome != CallFails
      ensures !Held(Drop(old(View()), pin).live, pin)
      ensures View() == if ok then Request(Drop(old(View()), pin), pin, direction, level)
                        else Drop(old(View()), pin)
    {
      ReleaseLine(pin);
      ok := outcome != CallFails;
      if ok {
        RequestLine(pin, direction, level);
      }
    }

    /** `ok` is false when the call raised. */
    method Set(pin: Pin, value: Setting, outcome: Outcome) returns (ok: bool)
      requires Agrees(View())
      modifies this, chip
      ensures ok <==> Actual(old(View()), outcome) == Works
      ensures View() == SetLine(old(View()), pin, value, outcome)
      ensures Agrees(View())
    {
      if !chipOpen {
        if outcome == OpenFails { return false; }
        chipOpen := true;
      }
      if value.HighZ? {
        ok := Renew(pin, Input, High, outcome);
      } else if pin !in requests || (pin in directions && directions[pin] == Input) {
        ok := Renew(pin, Output, value.level, outcome);
      } else {
        if outcome == CallFails { return false; }
        chip.SetValue(requests[pin], value.level);
        directions := directions[pin := Output];
        ok := true;
      }
    }
  }
}
