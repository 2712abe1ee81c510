/**
 * A client that keeps to RFC 855, at the other end of pi/serial_proxy.py: in the parameters of a
 * subnegotiation it doubles every IAC it sends and takes two for one when it reads. The proxy does neither.
 */
module TelnetPeer {
  import opened Common
  import opened Telnet
  import opened ComPort

  // ---- answers as the client reads them ---------------------------------------------

  function Prefixed(b: byte, r: Option<seq<byte>>): Option<seq<byte>> {
    if r.None? then None else Some([b] + r.value)
  }

  /** Parameters up to IAC SE; nothing if they do not end, or if another command stands among them. */
  function ReadBody(data: seq<byte>): (r: Option<seq<byte>>)
    ensures r.Some? ==> |r.value| + 2 <= |data|
  {
    if data == [] then None
    else if data[0] != IAC then Prefixed(data[0], ReadBody(data[1..]))
    else if |data| == 1 then None
    else if data[1] == SE then Some([])
    else if data[1] == IAC then Prefixed(IAC, ReadBody(data[2..]))
    else None
  }

  function ReadFrame(message: seq<byte>): Option<seq<byte>> {
    if |message| >= 3 && message[..3] == [IAC, SB, COM_PORT_OPTION] then ReadBody(message[3..]) else None
  }

  /** An IAC among the parameters read took two octets. */
  lemma {:induction false} DoubledTakesTwo(data: seq<byte>)
    requires ReadBody(data).Some? && IAC in ReadBody(data).value
    ensures |ReadBody(data).value| + 2 < |data|
    decreases |data|
  {
    if data[0] != IAC {
      DoubledTakesTwo(data[1..]);
    }
  }

  lemma {:induction false} PlainIsRead(body: seq<byte>)
    requires IAC !in body
    ensures ReadBody(body + [IAC, SE]) == Some(body)
  {
    var data := body + [IAC, SE];
    if body != [] {
      assert data[1..] == body[1..] + [IAC, SE];
      PlainIsRead(body[1..]);
      assert [body[0]] + body[1..] == body;
    }
  }

  /** What the proxy frames reaches the client exactly when it holds no IAC. */
  lemma FrameReachesClient(body: seq<byte>)
    ensures ReadFrame(Frame(body)) == Some(body) <==> IAC !in body
  {
    var rest := body + [IAC, SE];
    assert Frame(body)[..3] == [IAC, SB, COM_PORT_OPTION] && Frame(body)[3..] == rest;
    if IAC !in body {
      PlainIsRead(body);
    } else if ReadBody(rest) == Some(body) {
      DoubledTakesTwo(rest);
    }
  }

  /** An answer reaches the client exactly when neither its command nor its payload is or holds a 255. */
  lemma AnswerReachesClient(subcmd: byte, payload: seq<byte>)
    requires subcmd + 100 < 256
    ensures ReadFrame(Answer(subcmd, Some(payload))[0]) == Some([subcmd + 100] + payload)
            <==> subcmd != 155 && IAC !in payload
  {
    var body: seq<byte> := [subcmd + 100] + payload;
    FrameReachesClient(body);
    assert IAC in body <==> body[0] == IAC || IAC in payload;
  }

  /** So a baud-rate answer does exactly when no octet of the rate in force is 255. */
  lemma BaudAnswerReachesClient(p: Port, data: seq<byte>)
    requires ValidPort(p) && |data| >= 4
    ensures var (q, payload) := Handle(p, SET_BAUDRATE, data, Fine);
            && payload.Some? && |Answer(SET_BAUDRATE, payload)| == 1
            && (ReadFrame(Answer(SET_BAUDRATE, payload)[0]) == Some([101] + ToBigEndian(q.baudrate))
                <==> IAC !in ToBigEndian(q.baudrate))
  {
    AnswerReachesClient(SET_BAUDRATE, ToBigEndian(Handle(p, SET_BAUDRATE, data, Fine).0.baudrate));
  }

  // ---- requests as the proxy reads them ---------------------------------------------

  /** A request as the client sends it, its parameters escaped. */
  function Request(subcmd: byte, payload: seq<byte>): seq<byte> {
    [IAC, SB, COM_PORT_OPTION] + (Escape([subcmd] + payload) + [IAC, SE])
  }

  /** Among the first `n` octets nothing but 255 comes after a 255. */
  ghost predicate IacsLast(payload: seq<byte>, n: nat)
    requires n <= |payload|
  {
    forall i, j :: 0 <= i <= j < n && payload[i] == IAC ==> payload[j] == IAC
  }

  lemma {:induction false} EscapeIsLonger(payload: seq<byte>)
    ensures |Escape(payload)| >= |payload|
    ensures IAC in payload ==> |Escape(payload)| > |payload|
  {
    if payload != [] {
      EscapeIsLonger(payload[1..]);
    }
  }

  /** The first `n` octets are kept, and a 255 at the end of them is followed by one more. */
  ghost predicate Kept(payload: seq<byte>, e: seq<byte>, n: nat)
    requires n <= |payload|
  {
    && n <= |e| && (forall k :: 0 <= k < n ==> e[k] == payload[k])
    && (n > 0 && payload[n - 1] == IAC ==> n < |e| && e[n] == IAC)
  }

  lemma KeptBehindPlain(payload: seq<byte>, more: seq<byte>, n: nat)
    requires 0 < n <= |payload| && payload[0] != IAC && Kept(payload[1..], more, n - 1)
    ensures Kept(payload, [payload[0]] + more, n)
  {
    forall k | 1 <= k < n ensures ([payload[0]] + more)[k] == payload[k] {
      assert more[k - 1] == payload[1..][k - 1];
    }
    assert n > 1 ==> payload[n - 1] == payload[1..][n - 2];
  }

  lemma KeptBehindIac(payload: seq<byte>, more: seq<byte>, n: nat)
    requires 0 < n <= |payload| && payload[0] == IAC && IacsLast(payload, n) && Kept(payload[1..], more, n - 1)
    ensures Kept(payload, [IAC, IAC] + more, n)
  {
    var e := [IAC, IAC] + more;
    forall k | 2 <= k <= n ensures k < |e| && e[k] == IAC {
      assert more[k - 2] == payload[1..][k - 2] == payload[k - 1] == IAC;
    }
  }

  /** Escaping keeps such a beginning. */
  lemma {:induction false} EscapeKeeps(payload: seq<byte>, n: nat)
    requires n <= |payload| && IacsLast(payload, n)
    ensures Kept(payload, Escape(payload), n) && Escape(payload)[..n] == payload[..n]
  {
    if n > 0 {
      var rest := payload[1..];
      assert forall k :: 0 <= k < n - 1 ==> rest[k] == payload[k + 1];
      EscapeKeeps(rest, n - 1);
      if payload[0] == IAC {
        KeptBehindIac(payload, Escape(rest), n);
      } else {
        KeptBehindPlain(payload, Escape(rest), n);
      }
    }
  }

  /** Escaping keeps the first `n` octets exactly when nothing but 255 comes after a 255 among them. */
  lemma {:induction false} EscapeKeepsExactly(payload: seq<byte>, n: nat)
    requires n <= |payload|
    ensures |Escape(payload)| >= n && (Escape(payload)[..n] == payload[..n] <==> IacsLast(payload, n))
  {
    EscapeIsLonger(payload);
    if IacsLast(payload, n) {
      EscapeKeeps(payload, n);
    } else {
      var e := Escape(payload);
      EscapeKeepsExactly(payload, n - 1);
      if IacsLast(payload, n - 1) {
        EscapeKeeps(payload, n - 1);
        var i, j :| 0 <= i <= j < n && payload[i] == IAC && payload[j] != IAC;
        assert e[n - 1] == IAC != payload[n - 1];
        assert e[..n][n - 1] != payload[..n][n - 1];
      } else {
        assert e[..n][..n - 1] == e[..n - 1] && payload[..n][..n - 1] == payload[..n - 1];
      }
    }
  }

  /** The parameters as the proxy takes them: the escaped ones up to the first IAC SE. */
  function Received(payload: seq<byte>): (r: seq<byte>)
    ensures r <= Escape(payload)
  {
    var rest := Escape(payload) + [IAC, SE];
    var end := FindEnd(rest, 0);
    if end.Some? && end.value < |Escape(payload)| then Escape(payload)[..end.value] else Escape(payload)
  }

  lemma RequestStarts(subcmd: byte, payload: seq<byte>)
    requires subcmd != IAC
    ensures Request(subcmd, payload) == [IAC, SB, COM_PORT_OPTION, subcmd] + (Escape(payload) + [IAC, SE])
  {
    assert ([subcmd] + payload)[1..] == payload;
    assert Escape([subcmd] + payload) == [subcmd] + Escape(payload);
  }

  lemma ReceivedUpTo(payload: seq<byte>)
    ensures var rest := Escape(payload) + [IAC, SE];
            var end := FindEnd(rest, 0);
            end.Some? && rest[..end.value] == Received(payload)
  {
    FindsBy(Escape(payload) + [IAC, SE], 0, |Escape(payload)|);
  }

  /** What stands at the head of a subnegotiation whose end is found. */
  lemma HeadOfSub(subcmd: byte, rest: seq<byte>)
    requires subcmd != IAC && FindEnd(rest, 0).Some?
    ensures var data := [IAC, SB, COM_PORT_OPTION, subcmd] + rest;
            Head(data).0 == Parsed([], [ComPort(subcmd, rest[..FindEnd(rest, 0).value])])
  {
    var data := [IAC, SB, COM_PORT_OPTION, subcmd] + rest;
    var end := FindEnd(rest, 0).value;
    assert data[4..] == rest;
    FindInSuffix(data, 4, 0);
    assert FindEnd(data, 3) == Some(4 + end);
    assert data[3..4 + end] == [subcmd] + rest[..end];
    assert ([subcmd] + rest[..end])[1..] == rest[..end];
  }

  /** The first thing the proxy makes of a request. */
  lemma RequestIsReceived(subcmd: byte, payload: seq<byte>)
    requires subcmd != IAC
    ensures var calls := Parse(Request(subcmd, payload)).calls;
            calls != [] && calls[0] == ComPort(subcmd, Received(payload))
  {
    RequestStarts(subcmd, payload);
    ReceivedUpTo(payload);
    HeadOfSub(subcmd, Escape(payload) + [IAC, SE]);
  }

  /** In such a beginning no IAC SE stands that doubling made. */
  lemma NoEndWithin(payload: seq<byte>, n: nat)
    requires n <= |payload| && IacsLast(payload, n)
    ensures var rest := Escape(payload) + [IAC, SE];
            n <= |Escape(payload)| && forall k :: 0 <= k < n ==> !(rest[k] == IAC && rest[k + 1] == SE)
  {
    var rest := Escape(payload) + [IAC, SE];
    EscapeKeeps(payload, n);
    forall k | 0 <= k < n
      ensures !(rest[k] == IAC && rest[k + 1] == SE)
    {
      EscapeKeeps(payload, k + 1);
      assert rest[k] == Escape(payload)[..k + 1][k] == payload[k];
    }
  }

  lemma {:induction false} FindsLater(data: seq<byte>, from: nat, n: nat)
    requires from <= n < |data| && forall k :: from <= k < n ==> !(data[k] == IAC && data[k + 1] == SE)
    ensures FindEnd(data, from).Some? ==> FindEnd(data, from).value >= n
    decreases n - from
  {
    if from < n {
      FindsLater(data, from + 1, n);
    }
  }

  lemma NotCutShort(payload: seq<byte>, n: nat)
    requires n <= |payload| && IacsLast(payload, n)
    ensures |Received(payload)| >= n
  {
    NoEndWithin(payload, n);
    FindsLater(Escape(payload) + [IAC, SE], 0, n);
  }

  /**
   * The first `n` octets of a request's parameters, doubled as RFC 855 asks, are taken as meant exactly when
   * nothing but 255 comes after a 255 among them.
   */
  lemma RequestUnderstoodExactly(subcmd: byte, payload: seq<byte>, n: nat)
    requires subcmd != IAC && n <= |payload|
    ensures var calls := Parse(Request(subcmd, payload)).calls;
            && calls != [] && calls[0].ComPort? && calls[0].subcmd == subcmd
            && (n <= |calls[0].payload| && calls[0].payload[..n] == payload[..n] <==> IacsLast(payload, n))
  {
    RequestIsReceived(subcmd, payload);
    EscapeKeepsExactly(payload, n);
    var d := Received(payload);
    if IacsLast(payload, n) {
      NotCutShort(payload, n);
    }
    assert n <= |d| ==> d[..n] == Escape(payload)[..n];
  }

  /** A request of which the proxy uses one octet is always understood. */
  lemma OneOctetRequestUnderstood(p: Port, subcmd: byte, payload: seq<byte>)
    requires ValidPort(p) && payload != [] && SET_DATASIZE <= subcmd <= SET_CONTROL
    ensures var calls := Parse(Request(subcmd, payload)).calls;
            && calls != [] && calls[0].ComPort?
            && Handle(p, subcmd, calls[0].payload, Fine) == Handle(p, subcmd, payload, Fine)
  {
    RequestUnderstoodExactly(subcmd, payload, 1);
    var d := Parse(Request(subcmd, payload)).calls[0].payload;
    assert d[..1][0] == payload[..1][0];
  }

  lemma LastOctet(q: nat, b: byte)
    ensures (q * 256 + b) / 256 == q && (q * 256 + b) % 256 == b
  {
  }

  lemma OctetsOfNumber(b: seq<byte>)
    requires |b| == 4
    ensures ToBigEndian(FromBigEndian(b)) == b
  {
    var b0: int := b[0];
    var q2 := b0 * 256 + b[1];
    var q3 := q2 * 256 + b[2];
    var n := q3 * 256 + b[3];
    LastOctet(b0, b[1]);
    LastOctet(q2, b[2]);
    LastOctet(q3, b[3]);
    Quotients(n, q3, q2, b0);
    assert b == [b[0], b[1], b[2], b[3]];
  }

  lemma Quotients(n: nat, q3: nat, q2: nat, q1: nat)
    requires n / 256 == q3 && q3 / 256 == q2 && q2 / 256 == q1
    ensures n / 0x1_0000 == q2 && n / 0x100_0000 == q1
  {
  }

  lemma {:induction false} EscapedIacStays(payload: seq<byte>, n: nat)
    requires n <= |payload| && n <= |Escape(payload)| && IAC in payload[..n]
    ensures IAC in Escape(payload)[..n]
  {
    var e := Escape(payload);
    if payload[0] == IAC {
      assert e[..n][0] == IAC;
    } else {
      EscapeIsLonger(payload[1..]);
      assert payload[1..][..n - 1] == payload[..n][1..];
      EscapedIacStays(payload[1..], n - 1);
      assert e[..n] == [payload[0]] + Escape(payload[1..])[..n - 1];
    }
  }

  /** A baud rate is understood exactly when no octet of it but the last ones is 255. */
  lemma DoubledBaudRequest(p: Port, payload: seq<byte>)
    requires ValidPort(p) && |payload| >= 4
    ensures var calls := Parse(Request(SET_BAUDRATE, payload)).calls;
            && calls != [] && calls[0].ComPort?
            && (Handle(p, SET_BAUDRATE, calls[0].payload, Fine) == Handle(p, SET_BAUDRATE, payload, Fine)
                <==> IacsLast(payload, 4))
  {
    RequestUnderstoodExactly(SET_BAUDRATE, payload, 4);
    RequestIsReceived(SET_BAUDRATE, payload);
    var d := Received(payload);
    if !IacsLast(payload, 4) && |d| >= 4 {
      assert IAC in payload[..4] by {
        var i, j :| 0 <= i <= j < 4 && payload[i] == IAC && payload[j] != IAC;
        assert payload[..4][i] == IAC;
      }
      EscapeIsLonger(payload);
      EscapedIacStays(payload, 4);
      assert d[..4] == Escape(payload)[..4];
      OtherBaud(p, d, payload);
    }
  }

  lemma OtherBaud(p: Port, d: seq<byte>, payload: seq<byte>)
    requires ValidPort(p) && |d| >= 4 && |payload| >= 4 && d[..4] != payload[..4]
    requires IAC in d[..4] && IAC in payload[..4]
    ensures Handle(p, SET_BAUDRATE, d, Fine).0 != Handle(p, SET_BAUDRATE, payload, Fine).0
  {
    OctetsOfNumber(d[..4]);
    OctetsOfNumber(payload[..4]);
    assert ToBigEndian(0) == [0, 0, 0, 0];
  }

  lemma MisreadOctets()
    ensures Received([0, 1, 255, 0]) == [0, 1, 255, 255, 0]
  {
    assert [0, 1, 255, 0][1..] == [1, 255, 0] && [1, 255, 0][1..] == [255, 0] && [255, 0][1..] == [0];
    assert Escape([0]) == [0];
    assert Escape([255, 0]) == [255, 255, 0];
    assert Escape([1, 255, 0]) == [1, 255, 255, 0];
    assert Escape([0, 1, 255, 0]) == [0, 1, 255, 255, 0];
    FindsFirst(Escape([0, 1, 255, 0]) + [IAC, SE], 0, 5);
  }

  /** 130816 baud, doubled by the client, sets 131071. */
  lemma MisreadBaud(p: Port)
    requires ValidPort(p)
    ensures FromBigEndian([0, 1, 255, 0]) == 130816
    ensures var calls := Parse(Request(SET_BAUDRATE, [0, 1, 255, 0])).calls;
            && calls != [] && calls[0].ComPort?
            && Handle(p, SET_BAUDRATE, calls[0].payload, Fine).0.baudrate == 131071
  {
    RequestIsReceived(SET_BAUDRATE, [0, 1, 255, 0]);
    MisreadOctets();
    assert [0, 1, 255, 255, 0][..4] == [0, 1, 255, 255];
  }

  /** A request that is echoed whole comes back as meant exactly when it holds no 255. */
  lemma WholeRequestUnderstood(subcmd: byte, payload: seq<byte>)
    requires subcmd != IAC
    ensures var calls := Parse(Request(subcmd, payload)).calls;
            calls != [] && (calls[0] == ComPort(subcmd, payload) <==> IAC !in payload)
  {
    RequestIsReceived(subcmd, payload);
    var n := |payload|;
    EscapeKeepsExactly(payload, n);
    if IAC !in payload {
      NothingEscaped(payload);
      NotCutShort(payload, n);
    } else {
      EscapeIsLonger(payload);
      if IacsLast(payload, n) {
        TailOfIacs(payload);
        NoEndWithin(payload, n);
        FindsLater(Escape(payload) + [IAC, SE], 0, |Escape(payload)|);
        assert Received(payload) == Escape(payload);
      } else {
        assert |Received(payload)| == n ==> Received(payload) == Escape(payload)[..n];
        assert payload[..n] == payload;
      }
    }
  }

  lemma {:induction false} NothingEscaped(payload: seq<byte>)
    requires IAC !in payload
    ensures Escape(payload) == payload
  {
    if payload != [] {
      NothingEscaped(payload[1..]);
    }
  }

  /** Escaped 255s at the end of a payload leave nothing but 255 from there on. */
  lemma {:induction false} TailOfIacs(payload: seq<byte>)
    requires IacsLast(payload, |payload|) && IAC in payload
    ensures forall i :: |payload| - 1 <= i < |Escape(payload)| ==> Escape(payload)[i] == IAC
  {
    var rest := payload[1..];
    assert forall k :: 0 <= k < |rest| ==> rest[k] == payload[k + 1];
    EscapeIsLonger(rest);
    if IAC in rest {
      TailOfIacs(rest);
      if payload[0] == IAC {
        AllIacs(rest);
      }
    } else {
      assert payload[0] == IAC && rest == [];
      assert Escape(rest) == [];
    }
  }

  lemma {:induction false} AllIacs(payload: seq<byte>)
    requires forall k :: 0 <= k < |payload| ==> payload[k] == IAC
    ensures forall i :: 0 <= i < |Escape(payload)| ==> Escape(payload)[i] == IAC
  {
    if payload != [] {
      AllIacs(payload[1..]);
    }
  }
}
