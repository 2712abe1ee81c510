/**
 * Telnet framing (RFC 854) of a COM-PORT stream as pi/serial_proxy.py takes it apart.
 * `Parse` says what one buffer means; a printer for the same tokens is its inverse.
 */
module Telnet {
  import opened Common

  const IAC: byte := 255
  const DONT: byte := 254
  const DO: byte := 253
  const WONT: byte := 252
  const WILL: byte := 251
  const SB: byte := 250
  const SE: byte := 240
  const COM_PORT_OPTION: byte := 44

  /** What the parser asks of its owner: answer a negotiation, or handle a subnegotiation. */
  datatype Call = Agree(cmd: byte) | ComPort(subcmd: byte, payload: seq<byte>)

  datatype Parsed = Parsed(output: seq<byte>, calls: seq<Call>)

  predicate IsNegotiation(cmd: byte) { cmd == DO || cmd == DONT || cmd == WILL || cmd == WONT }

  /** The answer to a three-byte negotiation: DO and WILL of the COM-PORT option are agreed to. */
  function Negotiate(cmd: byte, opt: byte): seq<Call> {
    if cmd == DO && opt == COM_PORT_OPTION then [Agree(WILL)]
    else if cmd == WILL && opt == COM_PORT_OPTION then [Agree(DO)]
    else []
  }

  /** The first place at or after `from` where IAC SE stands. */
  function FindEnd(data: seq<byte>, from: nat): (r: Option<nat>)
    ensures r.Some? ==> from <= r.value && r.value + 1 < |data|
    decreases |data| - from
  {
    if from + 1 >= |data| then None
    else if data[from] == IAC && data[from + 1] == SE then Some(from)
    else FindEnd(data, from + 1)
  }

  function Then(p: Parsed, q: Parsed): Parsed { Parsed(p.output + q.output, p.calls + q.calls) }

  /** One command, negotiation, subnegotiation or byte at the head: its meaning and its length. */
  function Head(data: seq<byte>): (r: (Parsed, nat))
    requires data != []
    ensures 0 < r.1 <= |data|
  {
    if data[0] == IAC && |data| > 1 then
      var cmd := data[1];
      if cmd == IAC then (Parsed([IAC], []), 2)
      else if cmd == SB && |data| > 2 then
        var end := FindEnd(data, 3);
        if data[2] == COM_PORT_OPTION && end.Some? then
          var body := data[3..end.value];
          (Parsed([], [if body == [] then ComPort(0, []) else ComPort(body[0], body[1..])]), end.value + 2)
        else (Parsed([], []), 2)
      else if IsNegotiation(cmd) && |data| > 2 then (Parsed([], Negotiate(cmd, data[2])), 3)
      else (Parsed([], []), 2)
    else (Parsed([data[0]], []), 1)
  }

  function Parse(data: seq<byte>): Parsed
    decreases |data|
  {
    if data == [] then Parsed([], [])
    else
      var (head, n) := Head(data);
      Then(head, Parse(data[n..]))
  }

  // ---- the printer ------------------------------------------------------------------

  /** `Sub` carries subcommand and payload as they stand between the option byte and IAC SE. */
  datatype Token = Data(b: byte) | Command(cmd: byte) | Option3(cmd: byte, opt: byte) | Sub(body: seq<byte>)

  /** No IAC SE pair inside. */
  ghost predicate Clean(body: seq<byte>) {
    forall k :: 0 <= k < |body| - 1 ==> !(body[k] == IAC && body[k + 1] == SE)
  }

  ghost predicate Printable(t: Token) {
    match t
    case Data(_) => true
    case Command(cmd) => cmd != IAC && cmd != SB && !IsNegotiation(cmd)
    case Option3(cmd, _) => IsNegotiation(cmd)
    case Sub(body) => Clean(body)
  }

  function Frame(body: seq<byte>): seq<byte> { [IAC, SB, COM_PORT_OPTION] + body + [IAC, SE] }

  function Print(t: Token): seq<byte> {
    match t
    case Data(b) => if b == IAC then [IAC, IAC] else [b]
    case Command(cmd) => [IAC, cmd]
    case Option3(cmd, opt) => [IAC, cmd, opt]
    case Sub(body) => Frame(body)
  }

  function PrintAll(ts: seq<Token>): seq<byte> {
    if ts == [] then [] else Print(ts[0]) + PrintAll(ts[1..])
  }

  function Meaning(t: Token): Parsed {
    match t
    case Data(b) => Parsed([b], [])
    case Command(_) => Parsed([], [])
    case Option3(cmd, opt) => Parsed([], Negotiate(cmd, opt))
    case Sub(body) => Parsed([], [if body == [] then ComPort(0, []) else ComPort(body[0], body[1..])])
  }

  function MeaningAll(ts: seq<Token>): Parsed {
    if ts == [] then Parsed([], []) else Then(Meaning(ts[0]), MeaningAll(ts[1..]))
  }

  /** The search stops at the first pair, wherever it starts looking before it. */
  lemma {:induction false} FindsFirst(data: seq<byte>, from: nat, end: nat)
    requires from <= end && end + 1 < |data|
    requires data[end] == IAC && data[end + 1] == SE
    requires forall k :: from <= k < end ==> !(data[k] == IAC && data[k + 1] == SE)
    ensures FindEnd(data, from) == Some(end)
    decreases end - from
  {
    if from < end {
      FindsFirst(data, from + 1, end);
    }
  }

  lemma HeadOfPrinted(t: Token, rest: seq<byte>)
    requires Printable(t)
    ensures Head(Print(t) + rest) == (Meaning(t), |Print(t)|)
  {
    var data := Print(t) + rest;
    match t
    case Sub(body) =>
      var end := 3 + |body|;
      assert data[3..end] == body;
      forall k | 3 <= k < end
        ensures !(data[k] == IAC && data[k + 1] == SE)
      {
        assert data[k] == body[k - 3];
        if k + 1 < end {
          assert data[k + 1] == body[k - 2];
        }
      }
      FindsFirst(data, 3, end);
    case _ =>
  }

  /**
   * Parsing undoes printing: after any printed tokens the parser has emitted exactly their data
   * and calls, in order, and treats what follows as if it had just started.
   */
  lemma {:induction false} ParserUndoesPrinter(ts: seq<Token>, rest: seq<byte>)
    requires forall t :: t in ts ==> Printable(t)
    ensures Parse(PrintAll(ts) + rest) == Then(MeaningAll(ts), Parse(rest))
    decreases |ts|
  {
    if ts == [] {
      assert PrintAll(ts) + rest == rest;
      assert Then(Parsed([], []), Parse(rest)) == Parse(rest);
    } else {
      var first, more := Print(ts[0]), PrintAll(ts[1..]) + rest;
      assert PrintAll(ts) + rest == first + more;
      HeadOfPrinted(ts[0], more);
      assert (first + more)[|first|..] == more;
      ParserUndoesPrinter(ts[1..], rest);
      ThenAssociates(Meaning(ts[0]), MeaningAll(ts[1..]), Parse(rest));
    }
  }

  lemma ThenAssociates(p: Parsed, q: Parsed, r: Parsed)
    ensures Then(p, Then(q, r)) == Then(Then(p, q), r)
  {
    assert p.output + (q.output + r.output) == p.output + q.output + r.output;
    assert p.calls + (q.calls + r.calls) == p.calls + q.calls + r.calls;
  }

  /** Every IAC doubled. */
  function Escape(data: seq<byte>): seq<byte> {
    if data == [] then [] else (if data[0] == IAC then [IAC, IAC] else [data[0]]) + Escape(data[1..])
  }

  /** Escaped data comes back byte for byte, with no call made. */
  lemma {:induction false} EscapedDataRoundTrips(data: seq<byte>)
    ensures Parse(Escape(data)) == Parsed(data, [])
  {
    var ts := seq(|data|, i requires 0 <= i < |data| => Data(data[i]));
    EscapeIsPrinting(data, ts);
    ParserUndoesPrinter(ts, []);
    assert PrintAll(ts) + [] == PrintAll(ts);
    assert Then(Parsed(data, []), Parsed([], [])) == Parsed(data, []);
  }

  lemma {:induction false} EscapeIsPrinting(data: seq<byte>, ts: seq<Token>)
    requires |ts| == |data| && forall i :: 0 <= i < |ts| ==> ts[i] == Data(data[i])
    ensures Escape(data) == PrintAll(ts) && MeaningAll(ts) == Parsed(data, [])
  {
    if data != [] {
      EscapeIsPrinting(data[1..], ts[1..]);
      assert [data[0]] + data[1..] == data;
    }
  }

  /**
   * This parser reads a frame back as its own body exactly when the body holds no IAC SE pair. What a
   * client that keeps to RFC 855 reads is another matter (`TelnetPeer`).
   */
  lemma FrameSurvives(body: seq<byte>)
    requires body != []
    ensures Parse(Frame(body)) == Parsed([], [ComPort(body[0], body[1..])]) <==> Clean(body)
  {
    if Clean(body) {
      ParserUndoesPrinter([Sub(body)], []);
      assert PrintAll([Sub(body)]) + [] == Frame(body);
      assert MeaningAll([Sub(body)]) == Meaning(Sub(body));
    } else {
      var k :| 0 <= k < |body| - 1 && body[k] == IAC && body[k + 1] == SE;
      var data := Frame(body);
      assert data[3 + k] == IAC && data[4 + k] == SE;
      FindsBy(data, 3, 3 + k);
      var end := FindEnd(data, 3).value;
      var (head, n) := Head(data);
      assert |data[3..end]| == end - 3 <= k;
      assert |head.calls[0].payload| < |body[1..]|;
      assert Parse(data).calls[0] == head.calls[0];
    }
  }

  lemma {:induction false} FindsBy(data: seq<byte>, from: nat, at: nat)
    requires from <= at && at + 1 < |data| && data[at] == IAC && data[at + 1] == SE
    ensures FindEnd(data, from).Some? && FindEnd(data, from).value <= at
    decreases at - from
  {
    if from < at && !(data[from] == IAC && data[from + 1] == SE) {
      FindsBy(data, from + 1, at);
    }
  }

  // ---- where a stream may be cut ----------------------------------------------------

  /** What stands at the head would be read otherwise with more octets behind it. */
  predicate Loose(data: seq<byte>) {
    && |data| >= 1 && data[0] == IAC
    && (|data| == 1
        || (|data| == 2 && (data[1] == SB || IsNegotiation(data[1])))
        || (|data| > 2 && data[1] == SB && data[2] == COM_PORT_OPTION && FindEnd(data, 3).None?))
  }

  /** Nothing in the buffer is left open at its end. */
  predicate Settled(data: seq<byte>)
    decreases |data|
  {
    data == [] || (!Loose(data) && Settled(data[Head(data).1..]))
  }

  /** A stream may be cut after `a`: the two parts mean what the whole means, whatever follows. */
  ghost predicate CutsAnywhere(a: seq<byte>) { forall b :: Parse(a + b) == Then(Parse(a), Parse(b)) }

  lemma {:induction false} FindEndExtends(a: seq<byte>, b: seq<byte>, from: nat)
    requires FindEnd(a, from).Some?
    ensures FindEnd(a + b, from) == FindEnd(a, from)
    decreases |a| - from
  {
    if !(a[from] == IAC && a[from + 1] == SE) {
      FindEndExtends(a, b, from + 1);
    }
  }

  lemma HeadExtends(a: seq<byte>, b: seq<byte>)
    requires a != [] && !Loose(a)
    ensures Head(a + b) == Head(a)
    ensures (a + b)[Head(a).1..] == a[Head(a).1..] + b
  {
    if a[0] == IAC && |a| > 2 && a[1] == SB && a[2] == COM_PORT_OPTION {
      FindEndExtends(a, b, 3);
      var end := FindEnd(a, 3).value;
      assert (a + b)[3..end] == a[3..end];
    }
  }

  lemma {:induction false} SettledCuts(a: seq<byte>, b: seq<byte>)
    requires Settled(a)
    ensures Parse(a + b) == Then(Parse(a), Parse(b))
    decreases |a|
  {
    if a == [] {
      assert a + b == b;
      assert Then(Parsed([], []), Parse(b)) == Parse(b);
    } else {
      var (head, n) := Head(a);
      HeadExtends(a, b);
      SettledCuts(a[n..], b);
      ThenAssociates(head, Parse(a[n..]), Parse(b));
    }
  }

  lemma LoneIacClashes()
    ensures Parse([IAC] + [IAC]) != Then(Parse([IAC]), Parse([IAC]))
  {
    assert Parse([IAC]).output == [IAC];
    assert [IAC] + [IAC] == [IAC, IAC] && Head([IAC, IAC]) == (Parsed([IAC], []), 2);
    assert Parse([IAC, IAC]).output == [IAC];
  }

  lemma OpenNegotiationClashes(cmd: byte)
    requires IsNegotiation(cmd)
    ensures Parse([IAC, cmd] + [COM_PORT_OPTION]) != Then(Parse([IAC, cmd]), Parse([COM_PORT_OPTION]))
  {
    assert Parse([COM_PORT_OPTION]).output == [COM_PORT_OPTION];
    assert Parse([IAC, cmd]) == Parsed([], []);
    var whole := [IAC, cmd, COM_PORT_OPTION];
    assert [IAC, cmd] + [COM_PORT_OPTION] == whole && Head(whole).1 == 3 && Parse(whole).output == [];
  }

  lemma BareSubnegotiationClashes()
    ensures Parse([IAC, SB] + [COM_PORT_OPTION, IAC, SE]) != Then(Parse([IAC, SB]), Parse([COM_PORT_OPTION, IAC, SE]))
  {
    var tail := [COM_PORT_OPTION, IAC, SE];
    assert Parse([IAC, SB]) == Parsed([], []);
    assert Head(tail) == (Parsed([COM_PORT_OPTION], []), 1);
    assert Parse(tail).output[0] == COM_PORT_OPTION;
    var whole := Frame([]);
    assert [IAC, SB] + tail == whole;
    FindsFirst(whole, 3, 3);
    assert Head(whole).1 == 5 && Head(whole).0.output == [] && whole[5..] == [];
    assert Parse(whole).output == [];
  }

  lemma OpenSubnegotiationClashes(a: seq<byte>)
    requires |a| > 2 && a[0] == IAC && a[1] == SB && a[2] == COM_PORT_OPTION && FindEnd(a, 3).None?
    ensures Parse(a + [IAC, SE]) != Then(Parse(a), Parse([IAC, SE]))
  {
    var whole := a + [IAC, SE];
    NoEndInside(a, 3);
    FindsFirst(whole, 3, |a|);
    assert Head(whole).1 == |whole| && Head(whole).0.output == [];
    assert whole[|whole|..] == [] && Parse(whole).output == [];
    assert a[2..][0] == COM_PORT_OPTION && Head(a[2..]).0.output == [COM_PORT_OPTION];
    assert Parse(a[2..]).output[0] == COM_PORT_OPTION;
    assert Head(a) == (Parsed([], []), 2) && Parse(a).output == Parse(a[2..]).output;
  }

  lemma {:induction false} NoEndInside(a: seq<byte>, from: nat)
    requires from <= |a| && FindEnd(a, from).None?
    ensures forall k :: from <= k < |a| ==> !((a + [IAC, SE])[k] == IAC && (a + [IAC, SE])[k + 1] == SE)
    decreases |a| - from
  {
    if from + 1 < |a| {
      NoEndInside(a, from + 1);
    }
  }

  lemma LooseClashes(a: seq<byte>) returns (b: seq<byte>)
    requires Loose(a)
    ensures Parse(a + b) != Then(Parse(a), Parse(b))
  {
    if |a| == 1 {
      LoneIacClashes();
      assert a == [IAC];
      b := [IAC];
    } else if |a| == 2 && a[1] == SB {
      BareSubnegotiationClashes();
      assert a == [IAC, SB];
      b := [COM_PORT_OPTION, IAC, SE];
    } else if |a| == 2 {
      OpenNegotiationClashes(a[1]);
      assert a == [IAC, a[1]];
      b := [COM_PORT_OPTION];
    } else {
      OpenSubnegotiationClashes(a);
      b := [IAC, SE];
    }
  }

  lemma ThenCancels(p: Parsed, q: Parsed, r: Parsed)
    requires Then(p, q) == Then(p, r)
    ensures q == r
  {
    assert q.output == Then(p, q).output[|p.output|..] && r.output == Then(p, r).output[|p.output|..];
    assert q.calls == Then(p, q).calls[|p.calls|..] && r.calls == Then(p, r).calls[|p.calls|..];
  }

  lemma {:induction false} UnsettledClashes(a: seq<byte>) returns (b: seq<byte>)
    requires !Settled(a)
    ensures Parse(a + b) != Then(Parse(a), Parse(b))
    decreases |a|
  {
    if Loose(a) {
      b := LooseClashes(a);
    } else {
      var (head, n) := Head(a);
      b := UnsettledClashes(a[n..]);
      HeadExtends(a, b);
      ThenAssociates(head, Parse(a[n..]), Parse(b));
      if Then(head, Parse(a[n..] + b)) == Then(head, Then(Parse(a[n..]), Parse(b))) {
        ThenCancels(head, Parse(a[n..] + b), Then(Parse(a[n..]), Parse(b)));
      }
    }
  }

  /**
   * Reading a stream in two parts gives what reading it at once gives, whatever the second part is, exactly
   * when the first ends in no lone IAC, no unfinished negotiation and no open COM-PORT subnegotiation.
   */
  lemma CutsExactlyWhenSettled(a: seq<byte>)
    ensures CutsAnywhere(a) <==> Settled(a)
  {
    if Settled(a) {
      forall b ensures Parse(a + b) == Then(Parse(a), Parse(b)) {
        SettledCuts(a, b);
      }
    } else {
      var b := UnsettledClashes(a);
    }
  }

  /** The shortest case: a DO of the COM-PORT option cut after its IAC goes out as data and is not answered. */
  lemma CutCommandIsTakenForData()
    ensures Parse([IAC, DO, COM_PORT_OPTION]) == Parsed([], [Agree(WILL)])
    ensures Then(Parse([IAC]), Parse([DO, COM_PORT_OPTION])) == Parsed([IAC, DO, COM_PORT_OPTION], [])
  {
    assert Parse([]) == Parsed([], []);
    assert Head([IAC, DO, COM_PORT_OPTION]) == (Parsed([], [Agree(WILL)]), 3);
    assert Parse([COM_PORT_OPTION]) == Parsed([COM_PORT_OPTION], []);
    assert Head([DO, COM_PORT_OPTION]) == (Parsed([DO], []), 1);
    assert [DO, COM_PORT_OPTION][1..] == [COM_PORT_OPTION];
    assert Parse([IAC]) == Parsed([IAC], []);
  }

  /** Looking in a suffix is looking further on. */
  lemma {:induction false} FindInSuffix(data: seq<byte>, i: nat, from: nat)
    requires i <= |data|
    ensures FindEnd(data, i + from) ==
            match FindEnd(data[i..], from) case None => None case Some(e) => Some(i + e)
    decreases |data| - i - from
  {
    if from + 1 < |data[i..]| {
      FindInSuffix(data, i, from + 1);
    }
  }
}
