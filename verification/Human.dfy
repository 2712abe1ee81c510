/**
 * The human-interaction handshake of pi/portal.py: a blocking request, and the Done and Cancel
 * buttons that wake it. Each step below is one lock section, or one move of the blocked thread
 * between two of them, and any number of threads interleave them in any order.
 */
module Human {
  import opened Common

  /** The globals under `_human_lock`. An event object is named by a number of its own. */
  datatype Desk = Desk(event: Option<nat>, isSet: set<nat>, confirmed: bool, message: Option<string>, made: nat)

  predicate Pending(d: Desk) { d.event.Some? && d.event.value !in d.isSet }

  function Open(d: Desk, message: string): Desk {
    Desk(Some(d.made), d.isSet, false, Some(message), d.made + 1)
  }

  function Press(d: Desk, done: bool): Desk
    requires Pending(d)
  {
    d.(confirmed := done, isSet := d.isSet + {d.event.value})
  }

  function Close(d: Desk): Desk { d.(event := None, message := None) }

  /** Where a request's thread stands: before it reads the global event, waiting on the event it read, or woken. */
  datatype Stage = Accepted | Waiting(on: Option<nat>) | Woken(responded: bool)

  datatype Answer = Answer(id: nat, done: bool)

  datatype Reply = Reply(id: nat, confirmed: bool, timedOut: bool)

  /** The desk, the blocked threads by request, and what has happened: requests, accepted buttons and replies. */
  datatype System = System(desk: Desk, threads: map<nat, Stage>, asked: seq<string>,
                           answers: seq<Answer>, replies: seq<Reply>)

  datatype Move =
    | Request(message: string)
    | BeginWait(id: nat)
    | Wake(id: nat)
    | TimeOut(id: nat)
    | Finish(id: nat)
    | Button(done: bool)

  const IDLE := System(Desk(None, {}, false, None, 0), map[], [], [], [])

  function At(s: System, id: nat): Option<Stage> {
    if id in s.threads then Some(s.threads[id]) else None
  }

  predicate WaitsOnSet(s: System, id: nat) {
    match At(s, id)
    case Some(Waiting(Some(e))) => e in s.desk.isSet
    case _ => false
  }

  /** One move; a refused request or button, and a move no thread is ready for, change nothing. */
  function Step(s: System, m: Move): System {
    match m
    case Request(message) =>
      if message == "" || s.desk.event.Some? then s
      else
        s.(desk := Open(s.desk, message), threads := s.threads[s.desk.made := Accepted],
           asked := s.asked + [message])
    case BeginWait(id) =>
      if At(s, id) == Some(Accepted) then s.(threads := s.threads[id := Waiting(s.desk.event)]) else s
    case Wake(id) =>
      if WaitsOnSet(s, id) then s.(threads := s.threads[id := Woken(true)]) else s
    case TimeOut(id) =>
      var at := At(s, id);
      if at.Some? && at.value.Waiting? then s.(threads := s.threads[id := Woken(false)]) else s
    case Finish(id) =>
      var at := At(s, id);
      if at.Some? && at.value.Woken? then
        s.(desk := Close(s.desk), threads := s.threads - {id},
           replies := s.replies + [ReplyFor(id, s.desk.confirmed, at.value.responded)])
      else s
    case Button(done) =>
      if Pending(s.desk) then
        s.(desk := Press(s.desk, done), answers := s.answers + [Answer(s.desk.event.value, done)])
      else s
  }

  function ReplyFor(id: nat, confirmed: bool, responded: bool): Reply {
    if responded then Reply(id, confirmed, false) else Reply(id, false, true)
  }

  function Run(s: System, moves: seq<Move>): System
    decreases |moves|
  {
    if moves == [] then s else Run(Step(s, moves[0]), moves[1..])
  }

  /** What `_handle_human_status` shows: the message of the request that is still unanswered. */
  function Shown(d: Desk): Option<string> { if Pending(d) then d.message else None }

  /** The button accepted for a request. */
  function AnswerTo(answers: seq<Answer>, id: nat): Option<bool>
    decreases |answers|
  {
    if answers == [] then None
    else if answers[|answers| - 1].id == id then Some(answers[|answers| - 1].done)
    else AnswerTo(answers[..|answers| - 1], id)
  }

  lemma AnswerToAppend(answers: seq<Answer>, a: Answer, id: nat)
    ensures AnswerTo(answers + [a], id) == if a.id == id then Some(a.done) else AnswerTo(answers, id)
  {
    assert (answers + [a])[..|answers|] == answers;
  }

  // ---- the invariant ----------------------------------------------------------------

  /** At most one thread, that of the request on the desk, and it waits on its own event. */
  predicate OneServed(s: System) {
    && s.threads.Keys == (if s.desk.event.Some? then {s.desk.event.value} else {})
    && (s.desk.event.Some? ==>
          var stage := s.threads[s.desk.event.value];
          && (stage.Waiting? ==> stage.on == s.desk.event)
          && (stage == Woken(true) ==> s.desk.event.value in s.desk.isSet))
  }

  /** Requests are numbered as they come, and all but the one on the desk have their reply, in order. */
  predicate Counted(s: System) {
    && s.desk.made == |s.asked|
    && |s.replies| == |s.asked| - (if s.desk.event.Some? then 1 else 0)
    && (s.desk.event.Some? ==> s.desk.event.value == |s.replies| && s.desk.message == Some(s.asked[|s.replies|]))
    && forall i :: 0 <= i < |s.replies| ==> s.replies[i].id == i
  }

  /** The set events are those answered; answers come in the order of the requests, one for each at most. */
  ghost predicate AnsweredOnce(s: System) {
    && (forall id :: id in s.desk.isSet <==> AnswerTo(s.answers, id).Some?)
    && (forall i :: 0 <= i < |s.answers| ==> s.answers[i].id < |s.asked| && s.answers[i].id in s.desk.isSet)
    && (forall i, j :: 0 <= i < j < |s.answers| ==> s.answers[i].id < s.answers[j].id)
    && (s.desk.event.Some? ==> s.desk.confirmed == (AnswerTo(s.answers, s.desk.event.value) == Some(true)))
  }

  predicate Truthful(r: Reply, answers: seq<Answer>) {
    if r.timedOut then !r.confirmed else AnswerTo(answers, r.id) == Some(r.confirmed)
  }

  predicate AllTruthful(s: System) {
    forall i :: 0 <= i < |s.replies| ==> Truthful(s.replies[i], s.answers)
  }

  ghost predicate Good(s: System) { OneServed(s) && Counted(s) && AnsweredOnce(s) && AllTruthful(s) }

  /** An accepted button answers its own request and no other. */
  lemma ButtonAnswers(s: System, done: bool, a: Answer, id: nat)
    requires Pending(s.desk) && a == Answer(s.desk.event.value, done)
    ensures AnswerTo(Step(s, Button(done)).answers, id) == if a.id == id then Some(done) else AnswerTo(s.answers, id)
  {
    AnswerToAppend(s.answers, a, id);
  }

  lemma ButtonAnswersOnce(s: System, done: bool)
    requires Good(s) && Pending(s.desk)
    ensures AnsweredOnce(Step(s, Button(done)))
  {
    var t, a := Step(s, Button(done)), Answer(s.desk.event.value, done);
    forall id ensures id in t.desk.isSet <==> AnswerTo(t.answers, id).Some? {
      ButtonAnswers(s, done, a, id);
    }
    ButtonAnswers(s, done, a, a.id);
    forall i | 0 <= i < |s.answers| ensures s.answers[i].id < a.id {
      assert s.answers[i].id in s.desk.isSet && s.answers[i].id != a.id;
    }
  }

  /** A reply was made up before this button, for an earlier request. */
  lemma RepliesStayTruthful(s: System, done: bool, i: nat)
    requires Good(s) && Pending(s.desk) && i < |s.replies|
    ensures Truthful(s.replies[i], Step(s, Button(done)).answers)
  {
    ButtonAnswers(s, done, Answer(s.desk.event.value, done), s.replies[i].id);
    assert Truthful(s.replies[i], s.answers);
  }

  lemma ButtonGood(s: System, done: bool)
    requires Good(s) && Pending(s.desk)
    ensures Good(Step(s, Button(done)))
  {
    ButtonAnswersOnce(s, done);
    forall i | 0 <= i < |s.replies| ensures Truthful(s.replies[i], Step(s, Button(done)).answers) {
      RepliesStayTruthful(s, done, i);
    }
  }

  lemma FinishGood(s: System, id: nat)
    requires Good(s) && At(s, id).Some? && At(s, id).value.Woken?
    ensures Good(Step(s, Finish(id)))
  {
    var t := Step(s, Finish(id));
    assert id == |s.replies| && t.threads.Keys == {};
    assert t.replies[id] == ReplyFor(id, s.desk.confirmed, s.threads[id].responded);
    if s.threads[id].responded {
      var answer := AnswerTo(s.answers, id);
      assert s.threads[id] == Woken(true) && answer.Some?;
      assert answer.value == s.desk.confirmed;
    }
    assert Truthful(t.replies[id], t.answers);
  }

  lemma StepGood(s: System, m: Move)
    requires Good(s)
    ensures Good(Step(s, m))
  {
    match m
    case Button(done) => if Pending(s.desk) { ButtonGood(s, done); }
    case Finish(id) => if At(s, id).Some? && At(s, id).value.Woken? { FinishGood(s, id); }
    case Request(message) =>
      if message != "" && s.desk.event.None? {
        assert AnswerTo(s.answers, |s.asked|).None? by { AnswersAreAsked(s.answers, |s.asked|); }
      }
    case _ =>
  }

  lemma {:induction false} AnswersAreAsked(answers: seq<Answer>, bound: nat)
    requires forall i :: 0 <= i < |answers| ==> answers[i].id < bound
    ensures AnswerTo(answers, bound).None?
    decreases |answers|
  {
    if answers != [] {
      AnswersAreAsked(answers[..|answers| - 1], bound);
    }
  }

  lemma {:induction false} RunGood(s: System, moves: seq<Move>)
    requires Good(s)
    ensures Good(Run(s, moves))
    decreases |moves|
  {
    if moves != [] {
      StepGood(s, moves[0]);
      RunGood(Step(s, moves[0]), moves[1..]);
    }
  }

  // ---- what holds over every interleaving -------------------------------------------

  /** At most one request is open, and a blocked thread waits on its own request's event, never on another's. */
  lemma OneRequestAtATime(moves: seq<Move>)
    ensures var s := Run(IDLE, moves);
            && |s.threads| <= 1
            && forall id :: id in s.threads ==>
                 s.desk.event == Some(id) && (s.threads[id].Waiting? ==> s.threads[id].on == Some(id))
  {
    RunGood(IDLE, moves);
    var s := Run(IDLE, moves);
    assert |s.threads| == |s.threads.Keys|;
  }

  /** A request accepts at most one button, however many are pressed and whenever. */
  lemma OneAnswerPerRequest(moves: seq<Move>)
    ensures var s := Run(IDLE, moves);
            forall i, j :: 0 <= i < j < |s.answers| ==> s.answers[i].id < s.answers[j].id < |s.asked|
  {
    RunGood(IDLE, moves);
  }

  /** Every accepted request but the open one has had exactly one reply, and replies come in the order of requests. */
  lemma EveryRequestRepliedInOrder(moves: seq<Move>)
    ensures var s := Run(IDLE, moves);
            && |s.asked| == |s.replies| + |s.threads|
            && forall i :: 0 <= i < |s.replies| ==> s.replies[i].id == i
  {
    RunGood(IDLE, moves);
    var s := Run(IDLE, moves);
    assert |s.threads| == |s.threads.Keys|;
  }

  /**
   * A reply that is no time-out says confirmed exactly when the button its request accepted was Done,
   * and no reply says confirmed unless its own request accepted a Done.
   */
  lemma RepliesTellTheButton(moves: seq<Move>, i: nat)
    requires i < |Run(IDLE, moves).replies|
    ensures var s := Run(IDLE, moves);
            var r := s.replies[i];
            && (!r.timedOut ==> AnswerTo(s.answers, i) == Some(r.confirmed))
            && (r.confirmed ==> AnswerTo(s.answers, i) == Some(true))
  {
    RunGood(IDLE, moves);
    assert Truthful(Run(IDLE, moves).replies[i], Run(IDLE, moves).answers);
  }

  /** The page shows a message exactly while a request waits for its button, and it is that request's. */
  lemma StatusShowsTheOpenRequest(moves: seq<Move>)
    ensures var s := Run(IDLE, moves);
            Shown(s.desk) ==
              if |s.replies| < |s.asked| && AnswerTo(s.answers, |s.replies|).None? then Some(s.asked[|s.replies|])
              else None
  {
    RunGood(IDLE, moves);
  }

  /** An accepted Done is reported exactly when the wait had not timed out before the reply was made up. */
  lemma DoneReportedExactly(moves: seq<Move>, id: nat)
    requires At(Run(IDLE, moves), id).Some? && At(Run(IDLE, moves), id).value.Woken?
    ensures var s := Run(IDLE, moves);
            var t := Step(s, Finish(id));
            && |t.replies| == id + 1
            && (t.replies[id].confirmed <==> AnswerTo(s.answers, id) == Some(true) && s.threads[id].responded)
  {
    RunGood(IDLE, moves);
  }

  /** A Done pressed between the time-out and the reply is accepted, yet the reply is not confirmed. */
  lemma LateDoneIsLost(message: string)
    requires message != ""
    ensures var s := Run(IDLE, [Request(message), BeginWait(0), TimeOut(0), Button(true), Finish(0)]);
            s.answers == [Answer(0, true)] && s.replies == [Reply(0, false, true)]
  {
    var s1 := Step(IDLE, Request(message));
    var s2 := Step(s1, BeginWait(0));
    var s3 := Step(s2, TimeOut(0));
    var s4 := Step(s3, Button(true));
    var s5 := Step(s4, Finish(0));
    assert s5.replies == [Reply(0, false, true)] && s5.answers == [Answer(0, true)];
    assert Run(s4, [Finish(0)]) == s5;
    assert Run(s3, [Button(true), Finish(0)]) == s5;
    assert Run(s2, [TimeOut(0), Button(true), Finish(0)]) == s5;
    assert Run(s1, [BeginWait(0), TimeOut(0), Button(true), Finish(0)]) == s5;
  }

  // ---- what a request brings about --------------------------------------------------

  /** A request with a message is taken exactly when none is open; a refused one leaves no trace. */
  lemma RequestTakenExactly(moves: seq<Move>, message: string)
    ensures var s := Run(IDLE, moves);
            var t := Step(s, Request(message));
            if message == "" || |s.threads| > 0 then t == s
            else
              && t.asked == s.asked + [message] && Shown(t.desk) == Some(message)
              && t.threads == map[|s.asked| := Accepted] && t.replies == s.replies && t.answers == s.answers
  {
    RunGood(IDLE, moves);
    var s := Run(IDLE, moves);
    assert |s.threads| == |s.threads.Keys|;
    assert s.desk.event.None? ==> s.threads == map[];
    if message != "" && s.desk.event.None? {
      var id := |s.asked|;
      AnswersAreAsked(s.answers, id);
    }
  }

  /** A button counts exactly while a request is open that has had none. */
  lemma ButtonTakenExactly(moves: seq<Move>, done: bool)
    ensures var s := Run(IDLE, moves);
            var id := |s.replies|;
            Step(s, Button(done)).answers ==
              if |s.threads| > 0 && AnswerTo(s.answers, id).None? then s.answers + [Answer(id, done)] else s.answers
  {
    RunGood(IDLE, moves);
    var s := Run(IDLE, moves);
    assert |s.threads| == |s.threads.Keys|;
  }

  /** A request whose thread waits and has had no button yet. */
  predicate Waits(s: System, id: nat) {
    At(s, id) == Some(Waiting(Some(id))) && AnswerTo(s.answers, id).None?
  }

  /** An accepted request is waiting as soon as its thread comes to its wait, if no button was faster. */
  lemma RequestWaits(moves: seq<Move>, id: nat)
    requires At(Run(IDLE, moves), id) == Some(Accepted) && AnswerTo(Run(IDLE, moves).answers, id).None?
    ensures Waits(Step(Run(IDLE, moves), BeginWait(id)), id)
  {
    RunGood(IDLE, moves);
  }

  /** While it waits, a button that is noticed in time makes the reply, which says what was pressed. */
  lemma ButtonIsReported(moves: seq<Move>, id: nat, done: bool)
    requires Waits(Run(IDLE, moves), id)
    ensures var s := Run(IDLE, moves);
            var t := Step(Step(Step(s, Button(done)), Wake(id)), Finish(id));
            && t.replies == s.replies + [Reply(id, done, false)] && t.threads == map[]
            && t.desk.event == None && t.desk.message == None
  {
    RunGood(IDLE, moves);
    var s := Run(IDLE, moves);
    var pressed := Step(s, Button(done));
    assert s.desk.event == Some(id) && Pending(s.desk) && pressed.desk.event.value in pressed.desk.isSet;
    assert s.threads.Keys == {id};
    assert (s.threads[id := Woken(true)] - {id}).Keys == {};
  }

  /** Without a button it ends by its time-out, unconfirmed. */
  lemma TimeOutIsReported(moves: seq<Move>, id: nat)
    requires Waits(Run(IDLE, moves), id)
    ensures var s := Run(IDLE, moves);
            var t := Step(Step(s, TimeOut(id)), Finish(id));
            && t.replies == s.replies + [Reply(id, false, true)] && t.threads == map[]
            && t.desk.event == None && t.desk.message == None
  {
    RunGood(IDLE, moves);
    var s := Run(IDLE, moves);
    assert s.threads.Keys == {id};
    assert (s.threads[id := Woken(false)] - {id}).Keys == {};
  }

  // ---- the handlers -----------------------------------------------------------------

  class HumanDesk {
    var event: Option<nat>
    var isSet: set<nat>
    var confirmed: bool
    var message: Option<string>
    var made: nat

    function State(): Desk
      reads this
    {
      Desk(event, isSet, confirmed, message, made)
    }

    constructor ()
      ensures State() == IDLE.desk
    {
      event, isSet, confirmed, message, made := None, {}, false, None, 0;
    }

    /** The first lock section of `_handle_human_interaction`: the new event, or a refusal. */
    method HandleHumanInteraction(text: string) returns (mine: Option<nat>)
      modifies this
      ensures if text == "" || old(event).Some? then mine == None && State() == old(State())
              else mine == Some(old(made)) && State() == Open(old(State()), text)
    {
      mine := None;
      if text == "" || event.Some? {
        return;
      }
      mine := Some(made);
      event := mine;
      made := made + 1;
      confirmed := false;
      message := Some(text);
    }

    /** Its second lock section, once the wait has returned. */
    method FinishInteraction(id: nat, responded: bool) returns (reply: Reply)
      modifies `event, `message
      ensures State() == Close(old(State()))
      ensures reply == ReplyFor(id, old(confirmed), responded)
    {
      var answer := confirmed;
      event := None;
      message := None;
      if responded {
        reply := Reply(id, answer, false);
      } else {
        reply := Reply(id, false, true);
      }
    }

    /** `_handle_human_done` and `_handle_human_cancel`. */
    method HandleButton(done: bool) returns (ok: bool)
      modifies `confirmed, `isSet
      ensures ok == old(Pending(State()))
      ensures State() == if ok then Press(old(State()), done) else old(State())
    {
      ok := false;
      match event
      case None =>
      case Some(e) =>
        if e !in isSet {
          confirmed := done;
          isSet := isSet + {e};
          ok := true;
        }
    }

    method HandleHumanStatus() returns (pending: bool, text: Option<string>)
      ensures pending == Pending(State())
      ensures text == if pending then message else Some("")
    {
      pending, text := false, Some("");
      if event.Some? && event.value !in isSet {
        pending, text := true, message;
      }
    }
  }
}
