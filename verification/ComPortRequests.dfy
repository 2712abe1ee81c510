/**
 * What each COM-PORT request does, told from the octets on the wire: after any stream that leaves no command
 * open, one more request frame changes the port and is answered as section 3 of RFC 2217 lays down, or as the
 * proxy's code tables do where they differ from it.
 */
module ComPortRequests {
  import opened Common
  import opened Telnet
  import opened ComPort

  /** The parity codes of RFC 2217. */
  const PARITIES: map<byte, Parity> := map[1 := NoParity, 2 := Odd, 3 := Even, 4 := Mark, 5 := Space]

  /** The stop-size codes of RFC 2217. */
  const STOP_SIZES: map<byte, StopBits> := map[1 := One, 2 := Two, 3 := OnePointFive]

  /** Port and messages after a whole stream. */
  function Played(p: Port, stream: seq<byte>, faults: seq<Fault>): (r: (Port, seq<seq<byte>>))
    requires ValidPort(p)
    ensures ValidPort(r.0)
  {
    ReactAll(p, Parse(stream).calls, faults, 0)
  }

  /** After a stream that leaves nothing open, the rest of it meets the port that the first part has left. */
  lemma {:induction false} PlayedInTwo(p: Port, before: seq<byte>, rest: seq<byte>, faults: seq<Fault>)
    requires ValidPort(p) && Settled(before)
    ensures var (q, log) := Played(p, before, faults);
            var (r, sent) := ReactAll(q, Parse(rest).calls, faults, |Parse(before).calls|);
            Played(p, before + rest, faults) == (r, log + sent)
  {
    SettledCuts(before, rest);
    ReactAllConcat(p, Parse(before).calls, Parse(rest).calls, faults, 0);
  }

  lemma FrameIsOneCall(subcmd: byte, data: seq<byte>)
    requires Clean([subcmd] + data)
    ensures Parse(Frame([subcmd] + data)).calls == [Call.ComPort(subcmd, data)]
  {
    FrameSurvives([subcmd] + data);
    assert ([subcmd] + data)[1..] == data;
  }

  /** A last request meets the port that the stream before it has left. */
  lemma {:induction false} LastRequest(p: Port, before: seq<byte>, subcmd: byte, data: seq<byte>, faults: seq<Fault>)
    requires ValidPort(p) && Settled(before) && Clean([subcmd] + data)
    ensures var (q, log) := Played(p, before, faults);
            var (r, sent) := React(q, Call.ComPort(subcmd, data), FaultAt(faults, |Parse(before).calls|));
            Played(p, before + Frame([subcmd] + data), faults) == (r, log + sent)
  {
    PlayedInTwo(p, before, Frame([subcmd] + data), faults);
    FrameIsOneCall(subcmd, data);
    OneCall(Played(p, before, faults).0, Call.ComPort(subcmd, data), faults, |Parse(before).calls|);
  }

  lemma OneCall(p: Port, call: Call, faults: seq<Fault>, from: nat)
    requires ValidPort(p)
    ensures ReactAll(p, [call], faults, from) == React(p, call, FaultAt(faults, from))
  {
    var (q, sent) := React(p, call, FaultAt(faults, from));
    assert [call][1..] == [] && sent + [] == sent;
  }

  /** DTR and RTS go on and off with 8, 9, 11 and 12; every other control request changes nothing; all are echoed. */
  lemma ControlRequest(p: Port, before: seq<byte>, control: byte, more: seq<byte>)
    requires ValidPort(p) && Settled(before) && Clean([SET_CONTROL] + ([control] + more))
    ensures var (q, log) := Played(p, before, []);
            var (r, sent) := Played(p, before + Frame([SET_CONTROL] + ([control] + more)), []);
            && r == q.(dtr := r.dtr, rts := r.rts)
            && (r.dtr <==> control == 8 || (q.dtr && control != 9))
            && (r.rts <==> control == 11 || (q.rts && control != 12))
            && sent == log + [Frame([105, control])]
  {
    LastRequest(p, before, SET_CONTROL, [control] + more, []);
    assert [105 as byte] + [control] == [105, control];
  }

  /** A parity code sets the parity it names, an unknown one none; the answer is the code of the parity set. */
  lemma ParityRequest(p: Port, before: seq<byte>, code: byte, more: seq<byte>)
    requires ValidPort(p) && Settled(before) && Clean([SET_PARITY] + ([code] + more))
    ensures var (q, log) := Played(p, before, []);
            var (r, sent) := Played(p, before + Frame([SET_PARITY] + ([code] + more)), []);
            && r == q.(parity := if code in PARITIES then PARITIES[code] else NoParity)
            && sent == log + [Frame([103, if code in PARITIES then code else 1])]
  {
    LastRequest(p, before, SET_PARITY, [code] + more, []);
    var answer: byte := if code in PARITIES then code else 1;
    assert [103 as byte] + [answer] == [103, answer];
  }

  /** A stop-size code sets the size it names, an unknown one a single bit; all but two bits are answered with 1. */
  lemma StopSizeRequest(p: Port, before: seq<byte>, code: byte, more: seq<byte>)
    requires ValidPort(p) && Settled(before) && Clean([SET_STOPSIZE] + ([code] + more))
    ensures var (q, log) := Played(p, before, []);
            var (r, sent) := Played(p, before + Frame([SET_STOPSIZE] + ([code] + more)), []);
            && r == q.(stopbits := if code in STOP_SIZES then STOP_SIZES[code] else One)
            && sent == log + [Frame([104, if code == 2 then 2 else 1])]
  {
    LastRequest(p, before, SET_STOPSIZE, [code] + more, []);
    var answer: byte := if code == 2 then 2 else 1;
    assert [104 as byte] + [answer] == [104, answer];
  }

  /** A data size of 5 to 8 is set, any other leaves the size; the answer is the size in force. */
  lemma DataSizeRequest(p: Port, before: seq<byte>, size: byte, more: seq<byte>)
    requires ValidPort(p) && Settled(before) && Clean([SET_DATASIZE] + ([size] + more))
    ensures var (q, log) := Played(p, before, []);
            var (r, sent) := Played(p, before + Frame([SET_DATASIZE] + ([size] + more)), []);
            && r == q.(bytesize := if 5 <= size <= 8 then size else q.bytesize)
            && sent == log + [Frame([102, r.bytesize])]
  {
    LastRequest(p, before, SET_DATASIZE, [size] + more, []);
    var answer: byte := if 5 <= size <= 8 then size else Played(p, before, []).0.bytesize;
    assert [102 as byte] + [answer] == [102, answer];
  }

  /** Four octets that spell a number other than 0 set it as the baud rate; the answer spells the rate in force. */
  lemma BaudRequest(p: Port, before: seq<byte>, b3: byte, b2: byte, b1: byte, b0: byte, more: seq<byte>)
    requires ValidPort(p) && Settled(before) && Clean([SET_BAUDRATE] + ([b3, b2, b1, b0] + more))
    ensures var (q, log) := Played(p, before, []);
            var (r, sent) := Played(p, before + Frame([SET_BAUDRATE] + ([b3, b2, b1, b0] + more)), []);
            var asked := b3 * 0x100_0000 + b2 * 0x1_0000 + b1 * 256 + b0;
            && r == q.(baudrate := if asked > 0 then asked else q.baudrate)
            && sent == log + [Frame([101] + ToBigEndian(r.baudrate))]
  {
    var data := [b3, b2, b1, b0] + more;
    assert data[..4] == [b3, b2, b1, b0];
    LastRequest(p, before, SET_BAUDRATE, data, []);
  }

  /** DO and WILL of the COM-PORT option are agreed to; no other negotiation is answered, and none touches the port. */
  lemma {:induction false} NegotiationAnswered(p: Port, before: seq<byte>, cmd: byte, opt: byte)
    requires ValidPort(p) && Settled(before) && cmd in {DO, DONT, WILL, WONT}
    ensures var (q, log) := Played(p, before, []);
            Played(p, before + [IAC, cmd, opt], []) ==
              (q, if opt != 44 then log
                  else if cmd == 253 then log + [[255, 251, 44]]
                  else if cmd == 251 then log + [[255, 253, 44]]
                  else log)
  {
    var (q, log) := Played(p, before, []);
    NegotiationIsRead(cmd, opt);
    PlayedInTwo(p, before, [IAC, cmd, opt], []);
    assert log + [] == log;
    if Negotiate(cmd, opt) != [] {
      OneCall(q, Negotiate(cmd, opt)[0], [], |Parse(before).calls|);
    }
  }

  lemma NegotiationIsRead(cmd: byte, opt: byte)
    requires IsNegotiation(cmd)
    ensures Parse([IAC, cmd, opt]).calls == Negotiate(cmd, opt)
  {
    ParserUndoesPrinter([Option3(cmd, opt)], []);
    assert PrintAll([Option3(cmd, opt)]) + [] == [IAC, cmd, opt];
    assert MeaningAll([Option3(cmd, opt)]).calls == Negotiate(cmd, opt);
  }

  /** A request with a meaning, and enough octets for it. */
  predicate Known(subcmd: byte, data: seq<byte>) {
    (subcmd == SET_BAUDRATE && |data| >= 4) || (SET_DATASIZE <= subcmd <= SET_CONTROL && data != [])
  }

  /** Any other request leaves the port alone, and is echoed if its command leaves room for the answer's. */
  lemma OtherRequest(p: Port, before: seq<byte>, subcmd: byte, data: seq<byte>)
    requires ValidPort(p) && Settled(before) && Clean([subcmd] + data) && !Known(subcmd, data)
    ensures var (q, log) := Played(p, before, []);
            var (r, sent) := Played(p, before + Frame([subcmd] + data), []);
            && r == q
            && sent == log + (if subcmd > 155 then []
                              else [Frame([subcmd + 100] + (if data == [] then [0] else data))])
  {
    LastRequest(p, before, subcmd, data, []);
  }

  /** The request makes an assignment to the serial port. */
  predicate Assigns(subcmd: byte, data: seq<byte>) {
    && Known(subcmd, data)
    && (subcmd == SET_BAUDRATE ==> data[..4] != [0, 0, 0, 0])
    && (subcmd == SET_DATASIZE ==> 5 <= data[0] <= 8)
    && (subcmd == SET_CONTROL ==> data[0] in {8, 9, 11, 12})
  }

  lemma ZeroOctets(b: seq<byte>)
    requires |b| == 4
    ensures FromBigEndian(b) == 0 <==> b == [0, 0, 0, 0]
  {
    assert b == [b[0], b[1], b[2], b[3]];
  }

  /**
   * If the assignment raises, no answer goes out, and the port has the new value or the old one as the setter left
   * it; a request that assigns nothing cannot fail.
   */
  lemma RaisingSetter(p: Port, before: seq<byte>, subcmd: byte, data: seq<byte>, faults: seq<Fault>, n: nat)
    requires ValidPort(p) && Settled(before) && Clean([subcmd] + data) && n == |Parse(before).calls|
    ensures var (q, log) := Played(p, before, faults);
            var (r, sent) := Played(p, before + Frame([subcmd] + data), faults);
            var (fine, answer) := React(q, Call.ComPort(subcmd, data), Fine);
            if !Assigns(subcmd, data) || FaultAt(faults, n) == Fine then r == fine && sent == log + answer
            else sent == log && r == if FaultAt(faults, n) == RaisesBefore then q else fine
  {
    LastRequest(p, before, subcmd, data, faults);
    if Known(subcmd, data) && subcmd == SET_BAUDRATE {
      ZeroOctets(data[..4]);
    }
    var (_, log) := Played(p, before, faults);
    assert log + [] == log;
  }
}
