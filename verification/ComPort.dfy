/**
 * The COM-PORT responder of pi/serial_proxy.py (section 3 of RFC 2217): what a subnegotiation
 * does to the serial port and what is answered.
 */
module ComPort {
  import opened Common
  import opened Telnet

  const SET_BAUDRATE: byte := 1
  const SET_DATASIZE: byte := 2
  const SET_PARITY: byte := 3
  const SET_STOPSIZE: byte := 4
  const SET_CONTROL: byte := 5

  datatype Parity = NoParity | Odd | Even | Mark | Space
  datatype StopBits = One | OnePointFive | Two

  datatype Port = Port(baudrate: nat, bytesize: nat, parity: Parity, stopbits: StopBits, dtr: bool, rts: bool)

  /** How an assignment to a port attribute ends: fine, or raising before or after the value is stored. */
  datatype Fault = Fine | RaisesBefore | RaisesAfter

  /** The fault of the i-th call; calls beyond the list go well. */
  function FaultAt(faults: seq<Fault>, i: nat): Fault { if i < |faults| then faults[i] else Fine }

  predicate ValidPort(p: Port) { 5 <= p.bytesize <= 8 && 1 <= p.baudrate < 0x1_0000_0000 }

  function FromBigEndian(b: seq<byte>): (n: nat)
    requires |b| == 4
    ensures n < 0x1_0000_0000
  {
    var b0: int, b1: int, b2: int, b3: int := b[0], b[1], b[2], b[3];
    ((b0 * 256 + b1) * 256 + b2) * 256 + b3
  }

  function ToBigEndian(n: nat): (b: seq<byte>)
    requires n < 0x1_0000_0000
    ensures |b| == 4
  {
    [n / 0x100_0000, n / 0x1_0000 % 256, n / 256 % 256, n % 256]
  }

  lemma BigEndianRoundTrips(n: nat)
    requires n < 0x1_0000_0000
    ensures FromBigEndian(ToBigEndian(n)) == n
  {
    var q := n / 256;
    assert n / 0x1_0000 == q / 256;
    assert n / 0x100_0000 == q / 256 / 256;
  }

  function ParityOf(b: byte): Parity {
    if b == 2 then Odd else if b == 3 then Even else if b == 4 then Mark else if b == 5 then Space else NoParity
  }

  function ParityCode(p: Parity): byte {
    match p case NoParity => 1 case Odd => 2 case Even => 3 case Mark => 4 case Space => 5
  }

  function StopBitsOf(b: byte): StopBits { if b == 2 then Two else if b == 3 then OnePointFive else One }

  /** The code looked up for `int(stopbits)`, which turns 1.5 into 1. */
  function StopBitsCode(s: StopBits): byte { if s == Two then 2 else 1 }

  /** The code RFC 2217 gives a stop size. */
  function StopBitsWire(s: StopBits): byte { match s case One => 1 case Two => 2 case OnePointFive => 3 }

  /** The port after an assignment, and whether the handler gets past it. */
  function Assign(before: Port, after: Port, fault: Fault): (Port, bool) {
    match fault case Fine => (after, true) case RaisesBefore => (before, false) case RaisesAfter => (after, false)
  }

  function OrZero(data: seq<byte>): seq<byte> { if data == [] then [0] else data }

  /** Port and answer payload of one subnegotiation; no payload when the handler's exception is swallowed. */
  function Handle(p: Port, subcmd: byte, data: seq<byte>, fault: Fault): (r: (Port, Option<seq<byte>>))
    requires ValidPort(p)
    ensures ValidPort(r.0)
  {
    if subcmd == SET_BAUDRATE && |data| >= 4 then
      var baud := FromBigEndian(data[..4]);
      var (q, ok) := if baud > 0 then Assign(p, p.(baudrate := baud), fault) else (p, true);
      (q, if ok then Some(ToBigEndian(q.baudrate)) else None)
    else if subcmd == SET_DATASIZE && |data| >= 1 then
      var (q, ok) := if 5 <= data[0] <= 8 then Assign(p, p.(bytesize := data[0]), fault) else (p, true);
      (q, if ok then Some([q.bytesize]) else None)
    else if subcmd == SET_PARITY && |data| >= 1 then
      var (q, ok) := Assign(p, p.(parity := ParityOf(data[0])), fault);
      (q, if ok then Some([ParityCode(q.parity)]) else None)
    else if subcmd == SET_STOPSIZE && |data| >= 1 then
      var (q, ok) := Assign(p, p.(stopbits := StopBitsOf(data[0])), fault);
      (q, if ok then Some([StopBitsCode(q.stopbits)]) else None)
    else if subcmd == SET_CONTROL && |data| >= 1 then
      var (q, ok) :=
        if data[0] == 8 || data[0] == 9 then Assign(p, p.(dtr := data[0] == 8), fault)
        else if data[0] == 11 || data[0] == 12 then Assign(p, p.(rts := data[0] == 11), fault)
        else (p, true);
      (q, if ok then Some([data[0]]) else None)
    else (p, Some(OrZero(data)))
  }

  /** The frame put on the wire, if any: the answer's command byte must fit in an octet. */
  function Answer(subcmd: byte, payload: Option<seq<byte>>): seq<seq<byte>> {
    if payload.Some? && subcmd + 100 < 256 then [Frame([subcmd + 100] + payload.value)] else []
  }

  /** One call of the parser: the new port and what is sent to a connected client. */
  function React(p: Port, call: Call, fault: Fault): (r: (Port, seq<seq<byte>>))
    requires ValidPort(p)
    ensures ValidPort(r.0)
  {
    match call
    case Agree(cmd) => (p, [[IAC, cmd, COM_PORT_OPTION]])
    case ComPort(subcmd, data) =>
      var (q, payload) := Handle(p, subcmd, data, fault);
      (q, Answer(subcmd, payload))
  }

  function ReactAll(p: Port, calls: seq<Call>, faults: seq<Fault>, from: nat): (r: (Port, seq<seq<byte>>))
    requires ValidPort(p)
    ensures ValidPort(r.0)
    decreases |calls|
  {
    if calls == [] then (p, [])
    else
      var (q, sent) := React(p, calls[0], FaultAt(faults, from));
      var (last, more) := ReactAll(q, calls[1..], faults, from + 1);
      (last, sent + more)
  }

  lemma {:induction false} ReactAllConcat(p: Port, a: seq<Call>, b: seq<Call>, faults: seq<Fault>, from: nat)
    requires ValidPort(p)
    ensures var (q, sent) := ReactAll(p, a, faults, from);
            var (last, more) := ReactAll(q, b, faults, from + |a|);
            ReactAll(p, a + b, faults, from) == (last, sent + more)
    decreases |a|
  {
    var (_, all) := ReactAll(p, a + b, faults, from);
    if a == [] {
      assert a + b == b;
      assert [] + all == all;
    } else {
      assert (a + b)[1..] == a[1..] + b;
      var (first, s0) := React(p, a[0], FaultAt(faults, from));
      ReactAllConcat(first, a[1..], b, faults, from + 1);
      var (q, s1) := ReactAll(first, a[1..], faults, from + 1);
      var (_, s2) := ReactAll(q, b, faults, from + |a|);
      assert s0 + (s1 + s2) == s0 + s1 + s2;
    }
  }

  /** What was parsed up to `i` and what is left make up the whole. */
  ghost predicate ParsedUpTo(data: seq<byte>, i: nat, output: seq<byte>, done: seq<Call>) {
    i <= |data| && Parse(data) == Then(Parsed(output, done), Parse(data[i..]))
  }

  lemma ParseStarts(data: seq<byte>)
    ensures ParsedUpTo(data, 0, [], [])
  {
    assert data[0..] == data && Then(Parsed([], []), Parse(data)) == Parse(data);
  }

  lemma ParseAdvances(data: seq<byte>, i: nat, output: seq<byte>, done: seq<Call>, next: nat)
    requires i < |data| && ParsedUpTo(data, i, output, done) && next == i + Head(data[i..]).1
    ensures var head := Head(data[i..]).0; ParsedUpTo(data, next, output + head.output, done + head.calls)
  {
    assert data[i..][Head(data[i..]).1..] == data[next..];
    ThenAssociates(Parsed(output, done), Head(data[i..]).0, Parse(data[next..]));
  }

  lemma ParseEnds(data: seq<byte>, output: seq<byte>, done: seq<Call>)
    requires ParsedUpTo(data, |data|, output, done)
    ensures Parse(data) == Parsed(output, done)
  {
    assert Then(Parsed(output, done), Parsed([], [])) == Parsed(output, done);
  }

  // ---- whole client streams ---------------------------------------------------------

  /** The port after a stream of received buffers, whatever they hold and whichever setters raise. */
  ghost function AfterStream(p: Port, buffers: seq<seq<byte>>, faults: seq<seq<Fault>>): Port
    requires ValidPort(p) && |faults| == |buffers|
    decreases |buffers|
  {
    if buffers == [] then p
    else AfterStream(ReactAll(p, Parse(buffers[0]).calls, faults[0], 0).0, buffers[1..], faults[1..])
  }

  /** Any byte stream leaves the line settings legal. */
  lemma {:induction false} SettingsStayValid(p: Port, buffers: seq<seq<byte>>, faults: seq<seq<Fault>>)
    requires ValidPort(p) && |faults| == |buffers|
    ensures ValidPort(AfterStream(p, buffers, faults))
    decreases |buffers|
  {
    if buffers != [] {
      SettingsStayValid(ReactAll(p, Parse(buffers[0]).calls, faults[0], 0).0, buffers[1..], faults[1..]);
    }
  }

  predicate Answered(call: Call) { call.Agree? || call.subcmd <= 155 }

  function OnlyAnswered(calls: seq<Call>): seq<Call> {
    if calls == [] then []
    else if Answered(calls[0]) then [calls[0]] + OnlyAnswered(calls[1..])
    else OnlyAnswered(calls[1..])
  }

  /** A message answers a call: the agreed option, or a frame with the command plus 100. */
  predicate Answers(message: seq<byte>, call: Call) {
    match call
    case Agree(cmd) => message == [IAC, cmd, COM_PORT_OPTION]
    case ComPort(subcmd, _) =>
      && subcmd + 100 < 256
      && |message| >= 7
      && message == Frame([subcmd + 100] + message[4..|message| - 2])
  }

  /** One message for each call, in order. */
  predicate AllAnswer(sent: seq<seq<byte>>, calls: seq<Call>) {
    |sent| == |calls| && forall i :: 0 <= i < |sent| ==> Answers(sent[i], calls[i])
  }

  lemma AnswersJoin(a: seq<seq<byte>>, calls: seq<Call>, b: seq<seq<byte>>, more: seq<Call>)
    requires AllAnswer(a, calls) && AllAnswer(b, more)
    ensures AllAnswer(a + b, calls + more)
  {
  }

  lemma OneReaction(p: Port, call: Call)
    requires ValidPort(p)
    ensures var sent := React(p, call, Fine).1;
            if Answered(call) then |sent| == 1 && Answers(sent[0], call) else sent == []
  {
    if call.ComPort? && Answered(call) {
      var payload := Handle(p, call.subcmd, call.payload, Fine).1.value;
      var message := Frame([call.subcmd + 100] + payload);
      assert message[4..|message| - 2] == payload;
    }
  }

  /**
   * With setters that do not fail, every complete subnegotiation with a subcommand up to 155 and every
   * agreed negotiation gets exactly one message, in order; nothing else is sent.
   */
  lemma {:induction false} OneAnswerEach(p: Port, calls: seq<Call>, from: nat)
    requires ValidPort(p)
    ensures var sent := ReactAll(p, calls, [], from).1;
            AllAnswer(sent, OnlyAnswered(calls))
    decreases |calls|
  {
    if calls != [] {
      var (q, sent) := React(p, calls[0], Fine);
      OneReaction(p, calls[0]);
      OneAnswerEach(q, calls[1..], from + 1);
      var (_, more) := ReactAll(q, calls[1..], [], from + 1);
      AnswersJoin(sent, if Answered(calls[0]) then [calls[0]] else [], more, OnlyAnswered(calls[1..]));
    }
  }

  /**
   * A well-sized request for baud rate, data size or parity is answered with the value in force
   * afterwards, and a legal one takes effect.
   */
  lemma AnswersReportTheValueInForce(p: Port, data: seq<byte>)
    requires ValidPort(p) && |data| >= 1
    ensures |data| >= 4 ==>
              var (q, payload) := Handle(p, SET_BAUDRATE, data, Fine);
              && payload.Some? && |payload.value| == 4 && FromBigEndian(payload.value) == q.baudrate
              && q.baudrate == if FromBigEndian(data[..4]) > 0 then FromBigEndian(data[..4]) else p.baudrate
    ensures var (q, payload) := Handle(p, SET_DATASIZE, data, Fine);
            && payload == Some([q.bytesize])
            && q.bytesize == if 5 <= data[0] <= 8 then data[0] else p.bytesize
    ensures var (q, payload) := Handle(p, SET_PARITY, data, Fine);
            payload.Some? && |payload.value| == 1 && ParityOf(payload.value[0]) == q.parity
  {
    if |data| >= 4 {
      BigEndianRoundTrips(Handle(p, SET_BAUDRATE, data, Fine).0.baudrate);
    }
  }

  /** A stop-size answer names the size in force exactly when one and a half was not asked for. */
  lemma StopSizeAnswer(p: Port, data: seq<byte>)
    requires ValidPort(p) && |data| >= 1
    ensures var (q, payload) := Handle(p, SET_STOPSIZE, data, Fine);
            payload == Some([StopBitsWire(q.stopbits)]) <==> data[0] != 3
  {
    var (q, payload) := Handle(p, SET_STOPSIZE, data, Fine);
    assert payload.value[0] == StopBitsCode(q.stopbits);
    assert [StopBitsWire(q.stopbits)][0] == StopBitsWire(q.stopbits);
  }
}

/** The proxy object of pi/serial_proxy.py: the serial port's settings and what the client is sent. */
module SerialProxy {
  import opened Common
  import opened Telnet
  import opened ComPort

  class RFC2217Proxy {
    var port: Port
    var connected: bool
    var sent: seq<seq<byte>>

    constructor (port: Port)
      requires ValidPort(port)
      ensures this.port == port && !connected && sent == []
    {
      this.port, connected, sent := port, false, [];
    }

    method SendTelnet(cmd: byte, opt: byte)
      modifies this`sent
      ensures sent == if connected then old(sent) + [[IAC, cmd, opt]] else old(sent)
    {
      if connected {
        sent := sent + [[IAC, cmd, opt]];
      }
    }

    /** The message is only built for a client, and only if every byte of it is one. */
    method SendComPortOption(subcmd: nat, data: seq<byte>)
      modifies this`sent
      ensures sent == if connected && subcmd < 256 then old(sent) + [Frame([subcmd] + data)] else old(sent)
    {
      if connected {
        if subcmd < 256 {
          var msg: seq<byte> := [IAC, SB, COM_PORT_OPTION, subcmd] + data + [IAC, SE];
          assert msg == Frame([subcmd] + data);
          sent := sent + [msg];
        }
      }
    }

    /** An assignment to a port attribute; `ok` is false when it raised. */
    method SetPort(value: Port, fault: Fault) returns (ok: bool)
      modifies this`port
      ensures (port, ok) == Assign(old(port), value, fault)
    {
      if fault != RaisesBefore {
        port := value;
      }
      ok := fault == Fine;
    }

    method HandleComPortOption(subcmd: byte, data: seq<byte>, fault: Fault)
      requires ValidPort(port)
      modifies this`port, this`sent
      ensures port == Handle(old(port), subcmd, data, fault).0
      ensures sent == if connected then old(sent) + Answer(subcmd, Handle(old(port), subcmd, data, fault).1)
                      else old(sent)
    {
      var respCmd := subcmd + 100;
      if subcmd == SET_BAUDRATE && |data| >= 4 {
        var baud := FromBigEndian(data[..4]);
        if baud > 0 {
          var ok := SetPort(port.(baudrate := baud), fault);
          if !ok { return; }
        }
        SendComPortOption(respCmd, ToBigEndian(port.baudrate));
      } else if subcmd == SET_DATASIZE && |data| >= 1 {
        if 5 <= data[0] <= 8 {
          var ok := SetPort(port.(bytesize := data[0]), fault);
          if !ok { return; }
        }
        SendComPortOption(respCmd, [port.bytesize]);
      } else if subcmd == SET_PARITY && |data| >= 1 {
        var ok := SetPort(port.(parity := ParityOf(data[0])), fault);
        if !ok { return; }
        SendComPortOption(respCmd, [ParityCode(port.parity)]);
      } else if subcmd == SET_STOPSIZE && |data| >= 1 {
        var ok := SetPort(port.(stopbits := StopBitsOf(data[0])), fault);
        if !ok { return; }
        SendComPortOption(respCmd, [StopBitsCode(port.stopbits)]);
      } else if subcmd == SET_CONTROL && |data| >= 1 {
        var control := data[0];
        var ok := true;
        if control == 8 {
          ok := SetPort(port.(dtr := true), fault);
        } else if control == 9 {
          ok := SetPort(port.(dtr := false), fault);
        } else if control == 11 {
          ok := SetPort(port.(rts := true), fault);
        } else if control == 12 {
          ok := SetPort(port.(rts := false), fault);
        }
        if !ok { return; }
        SendComPortOption(respCmd, [control]);
      } else {
        SendComPortOption(respCmd, OrZero(data));
      }
    }

    /** One turn of the loop in `handle_rfc2217`: what stands at `i` is consumed and acted on. */
    method HandleHead(data: seq<byte>, i: nat, faults: seq<Fault>, n: nat)
      returns (output: seq<byte>, next: nat, calls: nat)
      requires ValidPort(port) && i < |data|
      modifies this`port, this`sent
      ensures var (head, len) := Head(data[i..]);
              && output == head.output && next == i + len && calls == n + |head.calls|
              && port == ReactAll(old(port), head.calls, faults, n).0
              && sent == if connected then old(sent) + ReactAll(old(port), head.calls, faults, n).1 else old(sent)
    {
      ghost var rest := data[i..];
      output, calls := [], n;
      if data[i] == IAC && i + 1 < |data| {
        var cmd := data[i + 1];
        if cmd == IAC {
          return [IAC], i + 2, n;
        }
        if cmd == SB && i + 2 < |data| {
          if data[i + 2] == COM_PORT_OPTION {
            var end := FindEnd(data, i + 3);
            FindInSuffix(data, i, 3);
            if end.Some? {
              var subcmd := if i + 3 < end.value then data[i + 3] else 0;
              var subdata := if i + 4 <= end.value then data[i + 4..end.value] else [];
              assert rest[3..end.value - i] == data[i + 3..end.value];
              assert Head(rest).0.calls == [Call.ComPort(subcmd, subdata)];
              HandleComPortOption(subcmd, subdata, FaultAt(faults, n));
              return [], end.value + 2, n + 1;
            }
          }
          return [], i + 2, n;
        }
        if IsNegotiation(cmd) {
          if i + 2 < |data| {
            var opt := data[i + 2];
            if cmd == DO && opt == COM_PORT_OPTION {
              SendTelnet(WILL, COM_PORT_OPTION);
              calls := n + 1;
            } else if cmd == WILL && opt == COM_PORT_OPTION {
              SendTelnet(DO, COM_PORT_OPTION);
              calls := n + 1;
            }
            return [], i + 3, calls;
          }
        }
        return [], i + 2, n;
      } else {
        return [data[i]], i + 1, n;
      }
    }

    /** `handle_rfc2217` over one received buffer. `faults` tells which calls' setters raise. */
    method HandleRfc2217(data: seq<byte>, faults: seq<Fault>) returns (output: seq<byte>)
      requires ValidPort(port)
      modifies this`port, this`sent
      ensures output == Parse(data).output
      ensures ValidPort(port) && port == ReactAll(old(port), Parse(data).calls, faults, 0).0
      ensures sent == if connected then old(sent) + ReactAll(old(port), Parse(data).calls, faults, 0).1
                      else old(sent)
    {
      var i, n := 0, 0;
      output := [];
      ghost var start, before := port, sent;
      ghost var done: seq<Call>, log: seq<seq<byte>> := [], [];
      ParseStarts(data);
      while i < |data|
        invariant ParsedUpTo(data, i, output, done) && n == |done|
        invariant (port, log) == ReactAll(start, done, faults, 0)
        invariant sent == if connected then before + log else before
        decreases |data| - i
      {
        ghost var head := Head(data[i..]).0;
        ghost var more := ReactAll(port, head.calls, faults, n).1;
        ReactAllConcat(start, done, head.calls, faults, 0);
        ConcatAssociates(before, log, more);
        var out, next, calls := HandleHead(data, i, faults, n);
        ParseAdvances(data, i, output, done, next);
        output, i, n := output + out, next, calls;
        done, log := done + head.calls, log + more;
      }
      ParseEnds(data, output, done);
    }
  }
}
