/**
 * Storms told without the slot: what a run means for the list of hotplug events is a sequence of marks,
 * and from the marks follows how many starts 30 s can hold.
 */
module StormMarks {
  import opened FlapWindow
  import opened SlotModel
  import opened SlotTheorems

  /** An event that was accepted, and whether it started a proxy; or the end of a recovery that clears the list. */
  datatype Mark = Quiet | Clear(at: real) | Note(at: real, starts: bool)

  predicate IsStart(m: Mark) { m.Note? && m.starts }

  function Play(events: seq<Event>, m: Mark): seq<Event> {
    match m case Quiet => events case Clear(_) => [] case Note(at, starts) => events + [Event(at, starts)]
  }

  /** The list of events after the marks. */
  function PlayAll(events: seq<Event>, marks: seq<Mark>): seq<Event> {
    if marks == [] then events else Play(PlayAll(events, marks[..|marks| - 1]), marks[|marks| - 1])
  }

  function StartsAmong(marks: seq<Mark>): nat {
    if marks == [] then 0
    else StartsAmong(marks[..|marks| - 1]) + if IsStart(marks[|marks| - 1]) then 1 else 0
  }

  function ClearsAmong(marks: seq<Mark>): nat {
    if marks == [] then 0
    else ClearsAmong(marks[..|marks| - 1]) + if marks[|marks| - 1].Clear? then 1 else 0
  }

  /** How many events were noted since the last clear. */
  function SinceClear(marks: seq<Mark>): nat {
    if marks == [] then 0 else Counted(SinceClear(marks[..|marks| - 1]), marks[|marks| - 1])
  }

  function Counted(c: nat, m: Mark): nat { match m case Quiet => c case Clear(_) => 0 case Note(_, _) => c + 1 }

  /** How many of them started a proxy. */
  function StartsSince(marks: seq<Mark>): nat {
    if marks == [] || marks[|marks| - 1].Clear? then 0
    else StartsSince(marks[..|marks| - 1]) + if IsStart(marks[|marks| - 1]) then 1 else 0
  }

  /** The clears that closed a group of starts. */
  function Groups(marks: seq<Mark>): nat {
    if marks == [] then 0
    else
      var init := marks[..|marks| - 1];
      Groups(init) + if marks[|marks| - 1].Clear? && StartsSince(init) > 0 then 1 else 0
  }

  function Max(a: real, b: real): real { if a < b then b else a }

  /** No event since the last clear is older than this. */
  function Floor(marks: seq<Mark>, from: real): (r: real)
    ensures r >= from
  {
    if marks == [] then from
    else if marks[|marks| - 1].Clear? then Max(from, marks[|marks| - 1].at)
    else Floor(marks[..|marks| - 1], from)
  }

  ghost predicate Calm(events: seq<Event>) { Ordered(Times(events)) && StormBound(events) }

  /** A mark fits: time goes forward, and a clear comes a whole cooldown after the last event before it. */
  ghost predicate Timely(events: seq<Event>, floor: real, m: Mark, from: real) {
    match m
    case Quiet => true
    case Clear(at) => floor <= Max(from, at) && forall e :: e in events ==> e.at + FLAP_COOLDOWN_S <= at
    case Note(at, _) => floor <= at < from + FLAP_WINDOW_S
  }

  /** All along the marks the list is ordered, within the storm bound, and every mark fits. */
  ghost predicate Sound(events: seq<Event>, marks: seq<Mark>, from: real) {
    && Calm(PlayAll(events, marks))
    && (marks != [] ==>
          var init := marks[..|marks| - 1];
          && Sound(events, init, from)
          && Timely(PlayAll(events, init), Floor(init, from), marks[|marks| - 1], from))
  }

  // ---- the events since the last clear ----------------------------------------------

  /** The last `n` events lie between the floor and the end of the window. */
  ghost predicate TailIn(events: seq<Event>, n: nat, floor: real, from: real) {
    n <= |events| && forall i :: |events| - n <= i < |events| ==> floor <= events[i].at < from + FLAP_WINDOW_S
  }

  function Tail(events: seq<Event>, n: nat): seq<Event>
    requires n <= |events|
  {
    events[|events| - n..]
  }

  lemma TailGrows(events: seq<Event>, n: nat, e: Event)
    requires n <= |events|
    ensures StartsIn(Tail(events + [e], n + 1)) == StartsIn(Tail(events, n)) + if e.starts then 1 else 0
  {
    assert Tail(events + [e], n + 1) == Tail(events, n) + [e];
    assert (Tail(events, n) + [e])[..n] == Tail(events, n);
  }

  /** A tail that falls into one window has few starts. */
  lemma TailHasFew(events: seq<Event>, n: nat, floor: real, from: real)
    requires Calm(events) && TailIn(events, n, floor, from) && from <= floor
    ensures StartsIn(Tail(events, n)) <= 5
  {
    assert events[|events| - n..|events|] == Tail(events, n);
    StretchStarts(events, |events| - n, |events|);
  }

  /** The list and the tail after the marks. */
  ghost predicate Told(marks: seq<Mark>, events: seq<Event>, from: real) {
    && TailIn(events, SinceClear(marks), Floor(marks, from), from)
    && StartsSince(marks) == StartsIn(Tail(events, SinceClear(marks)))
  }

  lemma ToldOn(marks: seq<Mark>, init: seq<Mark>, m: Mark, events: seq<Event>, from: real)
    requires marks != [] && init == marks[..|marks| - 1] && m == marks[|marks| - 1]
    requires Told(init, events, from) && Timely(events, Floor(init, from), m, from)
    ensures Told(marks, Play(events, m), from)
  {
    if m.Note? {
      TailGrows(events, SinceClear(init), Event(m.at, m.starts));
    }
  }

  // ---- groups of starts -------------------------------------------------------------

  /** The earliest moment of a group after so many closed ones. */
  function Opening(from: real, groups: nat): real {
    from + if groups == 0 then 0.0 else if groups == 1 then 10.0 else if groups == 2 then 20.0 else 30.0
  }

  /** Of the starts all but `since` lie in closed groups, each of which took a cooldown and holds at most five. */
  ghost predicate Grouped(groups: nat, clears: nat, starts: nat, since: nat, floor: real, from: real) {
    && groups <= 3 && groups <= clears && Opening(from, groups) <= floor
    && starts <= 5 * groups + since && since <= 5 && (since > 0 ==> groups <= 2)
  }

  ghost predicate MarksGrouped(marks: seq<Mark>, from: real) {
    Grouped(Groups(marks), ClearsAmong(marks), StartsAmong(marks), StartsSince(marks), Floor(marks, from), from)
  }

  /** Starts since the last clear are in the list, and after the floor. */
  lemma StartsAreThere(events: seq<Event>, n: nat, floor: real, from: real) returns (e: Event)
    requires TailIn(events, n, floor, from) && StartsIn(Tail(events, n)) > 0
    ensures e in events && floor <= e.at < from + FLAP_WINDOW_S
  {
    e := events[|events| - 1];
  }

  lemma NoteStep(groups: nat, clears: nat, starts: nat, since: nat, floor: real, from: real, start: nat)
    requires Grouped(groups, clears, starts, since, floor, from) && start <= 1 && since + start <= 5
    requires since + start > 0 ==> floor < from + FLAP_WINDOW_S
    ensures Grouped(groups, clears, starts + start, since + start, floor, from)
  {
  }

  lemma ClearStep(groups: nat, clears: nat, starts: nat, since: nat, floor: real, from: real, next: real)
    requires Grouped(groups, clears, starts, since, floor, from) && floor <= next
    requires since > 0 ==> floor + FLAP_COOLDOWN_S <= next
    ensures Grouped(groups + if since > 0 then 1 else 0, clears + 1, starts, 0, next, from)
  {
  }

  /** The counts after one mark more. */
  ghost predicate CountsOn(marks: seq<Mark>, init: seq<Mark>, m: Mark, from: real) {
    && ClearsAmong(marks) == ClearsAmong(init) + (if m.Clear? then 1 else 0)
    && StartsAmong(marks) == StartsAmong(init) + (if IsStart(m) then 1 else 0)
    && StartsSince(marks) == (if m.Clear? then 0 else StartsSince(init) + if IsStart(m) then 1 else 0)
    && Groups(marks) == Groups(init) + (if m.Clear? && StartsSince(init) > 0 then 1 else 0)
    && Floor(marks, from) == if m.Clear? then Max(from, m.at) else Floor(init, from)
  }

  lemma CountsOfLast(marks: seq<Mark>, init: seq<Mark>, m: Mark, from: real)
    requires marks != [] && init == marks[..|marks| - 1] && m == marks[|marks| - 1]
    ensures CountsOn(marks, init, m, from)
  {
  }

  lemma GroupedByNote(marks: seq<Mark>, init: seq<Mark>, m: Mark, from: real)
    requires CountsOn(marks, init, m, from) && MarksGrouped(init, from) && m.Note?
    requires StartsSince(marks) <= 5 && Floor(init, from) <= m.at < from + FLAP_WINDOW_S
    ensures MarksGrouped(marks, from)
  {
    NoteStep(Groups(init), ClearsAmong(init), StartsAmong(init), StartsSince(init), Floor(init, from), from,
             if IsStart(m) then 1 else 0);
  }

  lemma GroupedByClear(marks: seq<Mark>, init: seq<Mark>, m: Mark, from: real)
    requires CountsOn(marks, init, m, from) && MarksGrouped(init, from) && m.Clear?
    requires Floor(init, from) <= Max(from, m.at)
    requires StartsSince(init) > 0 ==> Floor(init, from) + FLAP_COOLDOWN_S <= m.at
    ensures MarksGrouped(marks, from)
  {
    ClearStep(Groups(init), ClearsAmong(init), StartsAmong(init), StartsSince(init), Floor(init, from), from,
              Max(from, m.at));
  }

  lemma GroupedOn(marks: seq<Mark>, init: seq<Mark>, m: Mark, events: seq<Event>, from: real)
    requires marks != [] && init == marks[..|marks| - 1] && m == marks[|marks| - 1]
    requires MarksGrouped(init, from) && Told(init, events, from) && Timely(events, Floor(init, from), m, from)
    requires Told(marks, Play(events, m), from) && Calm(Play(events, m))
    ensures MarksGrouped(marks, from)
  {
    CountsOfLast(marks, init, m, from);
    match m
    case Quiet =>
    case Note(_, _) =>
      TailHasFew(Play(events, m), SinceClear(marks), Floor(marks, from), from);
      GroupedByNote(marks, init, m, from);
    case Clear(at) =>
      if StartsSince(init) > 0 {
        var e := StartsAreThere(events, SinceClear(init), Floor(init, from), from);
      }
      GroupedByClear(marks, init, m, from);
  }

  lemma {:induction false} GroupedThroughout(events: seq<Event>, marks: seq<Mark>, from: real)
    requires Sound(events, marks, from)
    ensures Told(marks, PlayAll(events, marks), from) && MarksGrouped(marks, from)
    decreases |marks|
  {
    if marks != [] {
      var init, m := marks[..|marks| - 1], marks[|marks| - 1];
      GroupedThroughout(events, init, from);
      ToldOn(marks, init, m, PlayAll(events, init), from);
      GroupedOn(marks, init, m, PlayAll(events, init), from);
    }
  }

  /** Sound marks hold at most five starts for each clear and five more, and at most fifteen in all. */
  lemma MarksBounded(events: seq<Event>, marks: seq<Mark>, from: real)
    requires Sound(events, marks, from)
    ensures StartsAmong(marks) <= 5 * (1 + ClearsAmong(marks))
    ensures StartsAmong(marks) <= 15
  {
    GroupedThroughout(events, marks, from);
  }

  // ---- one mark more ----------------------------------------------------------------

  lemma CountsGrow(marks: seq<Mark>, m: Mark)
    ensures StartsAmong(marks + [m]) == StartsAmong(marks) + if IsStart(m) then 1 else 0
    ensures ClearsAmong(marks + [m]) == ClearsAmong(marks) + if m.Clear? then 1 else 0
  {
    assert (marks + [m])[..|marks|] == marks;
  }

  /** The marks lead soundly from one list to the other, by a moment after which nothing noted is too old. */
  ghost predicate Leads(events: seq<Event>, marks: seq<Mark>, after: seq<Event>, clock: real, from: real) {
    Sound(events, marks, from) && PlayAll(events, marks) == after && Floor(marks, from) <= Max(from, clock)
  }

  /** One step, from the list and clock before it to those after it. */
  ghost predicate StepLeads(before: seq<Event>, clock: real, m: Mark, after: seq<Event>, later: real, from: real) {
    && after == Play(before, m) && Calm(after) && clock <= later
    && (m.Note? ==> m.at == later && from <= m.at < from + FLAP_WINDOW_S)
    && (m.Clear? ==> m.at == clock && forall e :: e in before ==> e.at + FLAP_COOLDOWN_S <= m.at)
  }

  lemma LeadsOn(events: seq<Event>, marks: seq<Mark>, before: seq<Event>, clock: real, m: Mark, after: seq<Event>,
                later: real, from: real)
    requires Leads(events, marks, before, clock, from) && StepLeads(before, clock, m, after, later, from)
    ensures Leads(events, marks + [m], after, later, from)
  {
    assert (marks + [m])[..|marks|] == marks;
    assert Timely(before, Floor(marks, from), m, from);
  }

  lemma LeadsNowhere(events: seq<Event>, clock: real, from: real)
    requires Calm(events)
    ensures Leads(events, [], events, clock, from)
  {
  }
}
