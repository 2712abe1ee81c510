/**
 * The captive-portal DNS responder (test-firmware/components/dns_server/dns_server.c;
 * sections 3.1 and 4.1 of RFC 1035). `char` is unsigned, as on the ESP32 targets.
 */
module Dns {
  import opened Common

  type Ip = s: seq<byte> | |s| == 4 witness [0, 0, 0, 0]

  const DNS_MAX_LEN: nat := 256
  const NAME_MAX_LEN: nat := 128
  const HEADER_LEN: nat := 12
  const ANSWER_LEN: nat := 16
  const DOT: byte := 46
  const ANY_IP: Ip := [0, 0, 0, 0]
  const STAR: text := [42]

  /** A configured entry: a name or "*", and an interface to ask or a fixed address. */
  datatype Rule = Rule(name: text, ifKey: Option<text>, ip: Ip)

  // ---- names ------------------------------------------------------------------------

  /**
   * The name at `off`: labels joined with dots and the offset after the terminator; nothing if
   * more than `room` bytes would be written. The first label is taken without looking at its length.
   */
  function NameFrom(buf: text, off: nat, room: nat): (r: Option<(text, nat)>)
    requires off + room < |buf|
    ensures r.Some? ==> |r.value.0| < room && r.value.1 <= off + room + 1
    decreases room
  {
    var len: int := buf[off];
    if len + 1 > room then None
    else
      var part, next := buf[off + 1..off + 1 + len], off + len + 1;
      if buf[next] == 0 then Some((part, next + 1))
      else
        var more := NameFrom(buf, next, room - (len + 1));
        if more.None? then None else Some((part + [DOT] + more.value.0, more.value.1))
  }

  /** `parse_dns_name`: the label loop, writing into `parsed`. */
  method ParseDnsName(raw: array<byte>, off: nat, parsed: array<byte>) returns (end: Option<nat>)
    requires raw != parsed && parsed.Length > 0 && off + parsed.Length < raw.Length
    modifies parsed
    ensures var name := NameFrom(raw[..], off, parsed.Length);
            && (end.None? <==> name.None?)
            && (end.Some? ==> end.value == name.value.1
                              && parsed[..|name.value.0|] == name.value.0 && parsed[|name.value.0|] == 0)
  {
    ghost var goal := NameFrom(raw[..], off, parsed.Length);
    var part, nameLen := off, 0;
    JoinStart(goal);
    assert parsed[..0] == [];
    while true
      invariant nameLen <= parsed.Length && part == off + nameLen
      invariant JoinsTo(parsed[..nameLen], NameFrom(raw[..], part, parsed.Length - nameLen), goal)
      decreases parsed.Length - nameLen
    {
      var len: int := raw[part];
      nameLen := nameLen + (len + 1);
      if nameLen > parsed.Length {
        return None;
      }
      TakePart(raw, part, len, parsed, nameLen, goal);
      part := part + len + 1;
      if raw[part] == 0 {
        parsed[nameLen - 1] := 0;
        return Some(part + 1);
      }
    }
  }

  /** The body of the loop after the length check: `nameLen` already counts this label and its dot. */
  method TakePart(raw: array<byte>, part: nat, len: nat, parsed: array<byte>, nameLen: nat,
                  ghost goal: Option<(text, nat)>)
    requires raw != parsed && len + 1 <= nameLen <= parsed.Length
    requires part + parsed.Length - (nameLen - len - 1) < raw.Length && raw[part] == len
    requires JoinsTo(parsed[..nameLen - len - 1],
                     NameFrom(raw[..], part, parsed.Length - (nameLen - len - 1)), goal)
    modifies parsed
    ensures if raw[part + len + 1] == 0 then goal == Some((parsed[..nameLen - 1], part + len + 2))
            else JoinsTo(parsed[..nameLen], NameFrom(raw[..], part + len + 1, parsed.Length - nameLen), goal)
  {
    ghost var done, buf := parsed[..nameLen - len - 1], raw[..];
    CopyPart(raw, part + 1, len, parsed, nameLen - len - 1);
    JoinStep(done, buf, part, parsed.Length - (nameLen - len - 1), goal);
    assert buf[part + 1..part + 1 + len] == raw[part + 1..part + 1 + len];
    assert parsed[..nameLen] == done + buf[part + 1..part + 1 + len] + [DOT];
    assert parsed[..nameLen][..nameLen - 1] == parsed[..nameLen - 1];
  }

  /** The memcpy of one label and the '.' after it. */
  method CopyPart(raw: array<byte>, from: nat, len: nat, parsed: array<byte>, at: nat)
    requires raw != parsed && from + len <= raw.Length && at + len + 1 <= parsed.Length
    modifies parsed
    ensures parsed[..at + len + 1] == old(parsed[..at]) + raw[from..from + len] + [DOT]
  {
    forall i | 0 <= i < len {
      parsed[at + i] := raw[from + i];
    }
    parsed[at + len] := DOT;
  }

  /** What is written so far and what is still to be read make up the whole result. */
  ghost predicate JoinsTo(done: text, rest: Option<(text, nat)>, goal: Option<(text, nat)>) {
    goal == if rest.None? then None else Some((done + rest.value.0, rest.value.1))
  }

  lemma JoinStart(goal: Option<(text, nat)>)
    ensures JoinsTo([], goal, goal)
  {
    assert goal.Some? ==> [] + goal.value.0 == goal.value.0;
  }

  /** One label more: either the name ends here, or the rest of it joins on. */
  lemma JoinStep(done: text, buf: text, off: nat, room: nat, goal: Option<(text, nat)>)
    requires off + room < |buf| && buf[off] + 1 <= room && JoinsTo(done, NameFrom(buf, off, room), goal)
    ensures var len: int := buf[off];
            var next, longer := off + len + 1, done + buf[off + 1..off + 1 + len] + [DOT];
            if buf[next] == 0 then goal == Some((longer[..|longer| - 1], next + 1))
            else JoinsTo(longer, NameFrom(buf, next, room - (len + 1)), goal)
  {
    var len: int := buf[off];
    var next, piece := off + len + 1, buf[off + 1..off + 1 + len];
    var longer := done + piece + [DOT];
    assert longer[..|longer| - 1] == done + piece;
    if buf[next] != 0 {
      var more := NameFrom(buf, next, room - (len + 1));
      if more.Some? {
        assert done + (piece + [DOT] + more.value.0) == longer + more.value.0;
      }
    }
  }

  // ---- names as they stand on the wire ----------------------------------------------

  function Wire(labels: seq<text>): text {
    if labels == [] then [] else [|labels[0]| % 256] + labels[0] + Wire(labels[1..])
  }

  function EncodeName(labels: seq<text>): text { Wire(labels) + [0] }

  function Dotted(labels: seq<text>): text
    requires labels != []
  {
    if |labels| == 1 then labels[0] else labels[0] + [DOT] + Dotted(labels[1..])
  }

  /** Non-empty labels, whose lengths fit in one octet. */
  ghost predicate WellFormed(labels: seq<text>) {
    labels != [] && forall i :: 0 <= i < |labels| ==> 1 <= |labels[i]| < 256
  }

  /** `part` stands in `buf` at `off`. */
  predicate At(buf: text, off: nat, part: text) { off + |part| <= |buf| && buf[off..off + |part|] == part }

  lemma AtSplits(buf: text, off: nat, a: text, b: text)
    requires At(buf, off, a + b)
    ensures At(buf, off, a) && At(buf, off + |a|, b)
  {
    assert buf[off..off + |a|] == buf[off..off + |a + b|][..|a|];
    assert buf[off + |a|..off + |a| + |b|] == buf[off..off + |a + b|][|a|..];
  }

  lemma AtSplitsInThree(buf: text, off: nat, whole: text, a: text, b: text, c: text, next: nat)
    requires whole == a + (b + c) && At(buf, off, whole) && next == off + |a| + |b|
    ensures At(buf, off, a) && At(buf, off + |a|, b) && At(buf, next, c)
    ensures |whole| == |a| + |b| + |c|
  {
    AtSplits(buf, off, a, b + c);
    AtSplits(buf, off + |a|, b, c);
  }

  lemma AtJoins(buf: text, off: nat, a: text, b: text)
    requires At(buf, off, a) && At(buf, off + |a|, b)
    ensures At(buf, off, a + b)
  {
  }

  /** A wire name is one label with its length, and then the wire name of the rest. */
  lemma {:induction false} EncodeStarts(labels: seq<text>)
    requires labels != [] && |labels[0]| < 256
    ensures EncodeName(labels) == [|labels[0]|] + (labels[0] + EncodeName(labels[1..]))
  {
  }

  /** The first octet of a wire name is a length, or the terminator. */
  lemma {:induction false} EncodeFirst(labels: seq<text>)
    requires labels != [] ==> |labels[0]| < 256
    ensures EncodeName(labels) != [] && EncodeName(labels)[0] == if labels == [] then 0 else |labels[0]|
  {
  }

  /** Reading a wire name: its first length octet, its first label, and where the rest stands. */
  lemma {:induction false} NameStep(buf: text, off: nat, labels: seq<text>, next: nat)
    requires labels != [] && |labels[0]| < 256 && At(buf, off, EncodeName(labels))
    requires next == off + 1 + |labels[0]|
    ensures At(buf, off, [|labels[0]|]) && At(buf, off + 1, labels[0]) && At(buf, next, EncodeName(labels[1..]))
    ensures |EncodeName(labels)| == 1 + |labels[0]| + |EncodeName(labels[1..])|
  {
    EncodeStarts(labels);
    AtSplitsInThree(buf, off, EncodeName(labels), [|labels[0]|], labels[0], EncodeName(labels[1..]), next);
  }

  lemma AtHead(buf: text, off: nat, part: text)
    requires At(buf, off, part) && part != []
    ensures off < |buf| && buf[off] == part[0]
  {
    assert buf[off..off + |part|][0] == buf[off];
  }

  /** What one label in front of the rest of a name contributes. */
  lemma {:induction false} NameFromLabel(buf: text, off: nat, room: nat, part: text)
    requires off + room < |buf| && |part| + 1 <= room && buf[off] == |part| && At(buf, off + 1, part)
    ensures var next := off + 1 + |part|;
            NameFrom(buf, off, room) ==
              if buf[next] == 0 then Some((part, next + 1))
              else
                var more := NameFrom(buf, next, room - (|part| + 1));
                if more.None? then None else Some((part + [DOT] + more.value.0, more.value.1))
  {
  }

  /** The parser reads `name` at `off` and stops at `end`. */
  predicate Reads(buf: text, off: nat, room: nat, name: text, end: nat)
    requires off + room < |buf|
  {
    var r := NameFrom(buf, off, room);
    r.Some? && r.value.0 == name && r.value.1 == end
  }

  lemma {:induction false} LabelBeforeMore(buf: text, off: nat, room: nat, part: text, next: nat, left: nat,
                                           name: text, end: nat)
    requires off + room < |buf| && buf[off] == |part| && At(buf, off + 1, part)
    requires next == off + 1 + |part| && left + (|part| + 1) == room && buf[next] != 0
    requires Reads(buf, next, left, name, end)
    ensures Reads(buf, off, room, part + [DOT] + name, end)
  {
    NameFromLabel(buf, off, room, part);
  }

  /** What a reader at the start of a wire name sees. */
  lemma {:induction false} NameHead(buf: text, off: nat, labels: seq<text>, next: nat)
    requires WellFormed(labels) && At(buf, off, EncodeName(labels)) && next == off + 1 + |labels[0]|
    ensures next < |buf| && buf[off] == |labels[0]| && At(buf, off + 1, labels[0])
    ensures buf[next] == 0 <==> labels[1..] == []
    ensures labels[1..] != [] ==> WellFormed(labels[1..])
  {
    var rest := labels[1..];
    NameStep(buf, off, labels, next);
    AtHead(buf, off, [|labels[0]|]);
    EncodeFirst(rest);
    AtHead(buf, next, EncodeName(rest));
  }

  /**
   * Parsing undoes encoding: a name of non-empty labels of at most `room` bytes comes out dotted,
   * with the offset just past its terminator.
   */
  lemma {:induction false} NameRoundTrips(buf: text, off: nat, room: nat, labels: seq<text>, end: nat)
    requires WellFormed(labels) && At(buf, off, EncodeName(labels)) && end == off + |EncodeName(labels)|
    requires end <= off + room + 1 && off + room < |buf|
    ensures Reads(buf, off, room, Dotted(labels), end)
    decreases |labels|
  {
    var first, rest := labels[0], labels[1..];
    var next, left := AfterFirstLabel(buf, off, room, labels, end);
    if rest == [] {
      NameFromLabel(buf, off, room, first);
    } else {
      NameRoundTrips(buf, next, left, rest, end);
      LabelBeforeMore(buf, off, room, first, next, left, Dotted(rest), end);
    }
  }

  /** Where the name goes on after its first label, and the room that is left for it. */
  lemma {:induction false} AfterFirstLabel(buf: text, off: nat, room: nat, labels: seq<text>, end: nat)
    returns (next: nat, left: nat)
    requires WellFormed(labels) && At(buf, off, EncodeName(labels)) && end == off + |EncodeName(labels)|
    requires end <= off + room + 1 && off + room < |buf|
    ensures next == off + 1 + |labels[0]| && left == room - (|labels[0]| + 1)
    ensures buf[off] == |labels[0]| && At(buf, off + 1, labels[0]) && (buf[next] == 0 <==> labels[1..] == [])
    ensures labels[1..] != [] ==> WellFormed(labels[1..])
    ensures At(buf, next, EncodeName(labels[1..])) && end == next + |EncodeName(labels[1..])|
    ensures next < end <= next + left + 1 && next + left < |buf|
    ensures labels[1..] == [] ==> end == next + 1
  {
    next := off + 1 + |labels[0]|;
    NameHead(buf, off, labels, next);
    NameStep(buf, off, labels, next);
    NonEmptyWire(labels[1..]);
    left := room - (|labels[0]| + 1);
  }

  lemma {:induction false} NonEmptyWire(labels: seq<text>)
    ensures |EncodeName(labels)| >= 1 && (labels == [] ==> |EncodeName(labels)| == 1)
  {
  }

  /** One label in front of a wire name makes a wire name. */
  lemma {:induction false} WireGrows(buf: text, off: nat, part: text, next: nat, rest: seq<text>)
    requires |part| < 256 && off < |buf| && buf[off] == |part| && At(buf, off + 1, part)
    requires next == off + 1 + |part| && At(buf, next, EncodeName(rest))
    ensures At(buf, off, EncodeName([part] + rest)) && |EncodeName([part] + rest)| == 1 + |part| + |EncodeName(rest)|
  {
    assert ([part] + rest)[1..] == rest;
    EncodeStarts([part] + rest);
    AtJoins(buf, off + 1, part, EncodeName(rest));
    assert At(buf, off, [|part|]);
    AtJoins(buf, off, [|part|], part + EncodeName(rest));
  }

  lemma {:induction false} DottedGrows(part: text, rest: seq<text>)
    ensures Dotted([part] + rest) == if rest == [] then part else part + [DOT] + Dotted(rest)
  {
    assert ([part] + rest)[1..] == rest;
  }

  /** What the parser accepts is a list of labels, written out and terminated, of which only the first may be empty. */
  lemma {:induction false} AcceptedNameIsLabels(buf: text, off: nat, room: nat) returns (labels: seq<text>)
    requires off + room < |buf| && NameFrom(buf, off, room).Some?
    ensures labels != [] && |EncodeName(labels)| <= room + 1
    ensures |labels[0]| == buf[off] && forall i :: 0 < i < |labels| ==> labels[i] != []
    ensures var (name, end) := NameFrom(buf, off, room).value;
            name == Dotted(labels) && end == off + |EncodeName(labels)| && At(buf, off, EncodeName(labels))
    decreases room
  {
    var len: int := buf[off];
    var part, next := buf[off + 1..off + 1 + len], off + 1 + len;
    var rest: seq<text> := [];
    NameFromLabel(buf, off, room, part);
    if buf[next] == 0 {
      assert EncodeName(rest) == [0] && At(buf, next, [0]);
    } else {
      rest := AcceptedNameIsLabels(buf, next, room - (len + 1));
    }
    WireGrows(buf, off, part, next, rest);
    DottedGrows(part, rest);
    labels := [part] + rest;
  }

  /** The root name is misread: the parser steps over its terminator and takes the next zero for it. */
  lemma RootNameMisread(buf: text, off: nat)
    requires off + NAME_MAX_LEN < |buf| && buf[off] == 0 && buf[off + 1] == 0
    ensures NameFrom(buf, off, NAME_MAX_LEN) == Some(([], off + |EncodeName([])| + 1))
  {
  }

  // ---- rules ------------------------------------------------------------------------

  predicate Matches(rule: Rule, name: text) { rule.name == STAR || rule.name == name }

  predicate Settles(rules: seq<Rule>, i: nat, name: text)
    requires i < |rules|
  {
    Matches(rules[i], name) && (rules[i].ifKey.Some? || rules[0].ip != ANY_IP)
  }

  function AddressOf(rule: Rule, netif: map<text, Ip>): Ip {
    match rule.ifKey
    case Some(key) => if key in netif then netif[key] else ANY_IP
    case None => rule.ip
  }

  /**
   * The rule scan. A matching rule with an interface settles it; one with a fixed address settles
   * it only if the first rule of the table has one too.
   */
  method SelectIp(rules: seq<Rule>, name: text, netif: map<text, Ip>) returns (ip: Ip)
    ensures ip == Selected(rules, name, netif)
  {
    ip := ANY_IP;
    for i := 0 to |rules|
      invariant forall j :: 0 <= j < i ==> !Settles(rules, j, name)
    {
      if rules[i].name == STAR || rules[i].name == name {
        if rules[i].ifKey.Some? {
          FirstSettles(rules, name, i);
          var key := rules[i].ifKey.value;
          return if key in netif then netif[key] else ANY_IP;
        } else if rules[0].ip != ANY_IP {
          FirstSettles(rules, name, i);
          return rules[i].ip;
        }
      }
    }
    NoneSettles(rules, name);
  }

  /** The place of the first settling rule, or the number of rules. */
  function Settling(rules: seq<Rule>, name: text, from: nat): (i: nat)
    requires from <= |rules|
    ensures from <= i <= |rules| && (i < |rules| ==> Settles(rules, i, name))
    ensures forall j :: from <= j < i ==> !Settles(rules, j, name)
    decreases |rules| - from
  {
    if from == |rules| || Settles(rules, from, name) then from else Settling(rules, name, from + 1)
  }

  function Selected(rules: seq<Rule>, name: text, netif: map<text, Ip>): Ip {
    var i := Settling(rules, name, 0);
    if i == |rules| then ANY_IP else AddressOf(rules[i], netif)
  }

  lemma FirstSettles(rules: seq<Rule>, name: text, i: nat)
    requires i < |rules| && Settles(rules, i, name) && forall j :: 0 <= j < i ==> !Settles(rules, j, name)
    ensures Settling(rules, name, 0) == i
  {
  }

  lemma NoneSettles(rules: seq<Rule>, name: text)
    requires forall j :: 0 <= j < |rules| ==> !Settles(rules, j, name)
    ensures Settling(rules, name, 0) == |rules|
  {
  }

  // ---- the reply --------------------------------------------------------------------

  datatype Outcome = Refused | Failed | Replied(bytes: text)

  /** The code's test of `flags & 0x7800` on a little-endian machine reads the second flag byte. */
  predicate FlagTestPasses(high: byte) { high / 8 % 16 == 0 }

  function SetQr(flags: byte): byte { if flags < 128 then flags + 128 else flags }

  function Zeros(n: nat): text { seq(n, _ => 0) }

  /** The request at the start of a zeroed buffer. */
  function Padded(req: text): (r: text)
    requires |req| <= DNS_MAX_LEN
    ensures |r| == DNS_MAX_LEN
  {
    req + Zeros(DNS_MAX_LEN - |req|)
  }

  /** The header of a reply: QR set, and the answer count equal to the question count. */
  function Patched(buf: text): (r: text)
    requires |buf| >= HEADER_LEN
    ensures |r| == |buf|
  {
    buf[2 := SetQr(buf[2])][6 := buf[4]][7 := buf[5]]
  }

  /** An A record in class `cls` for the name at offset 12, valid for 300 seconds. */
  function Record(cls: text, ip: Ip): (r: text)
    requires |cls| == 2
    ensures |r| == ANSWER_LEN
  {
    [0xC0, 12, 0, 1] + cls + [0, 0, 1, 44, 0, 4] + ip
  }

  function Overwrite(buf: text, at: nat, part: text): (r: text)
    requires at + |part| <= |buf|
    ensures |r| == |buf|
  {
    buf[..at] + part + buf[at + |part|..]
  }

  datatype Question = Question(name: text, hi: byte, lo: byte, cls: text)

  /** The first question, its name as a C string, if that can be read. */
  function FirstOf(buf: text): (q: Option<Question>)
    requires |buf| == DNS_MAX_LEN
    ensures q.Some? ==> |q.value.cls| == 2
    ensures q.Some? <==> NameFrom(buf, HEADER_LEN, NAME_MAX_LEN).Some?
  {
    var parsed := NameFrom(buf, HEADER_LEN, NAME_MAX_LEN);
    if parsed.None? then None
    else
      var (name, end) := parsed.value;
      Some(Question(CString(name), buf[end], buf[end + 1], buf[end + 2..end + 4]))
  }

  /** Its type is A, and a rule gives an address. */
  predicate IsAnswered(q: Question, rules: seq<Rule>, netif: map<text, Ip>) {
    q.hi == 0 && q.lo == 1 && Selected(rules, q.name, netif) != ANY_IP
  }

  function RecordFor(q: Question, rules: seq<Rule>, netif: map<text, Ip>): (r: text)
    requires |q.cls| == 2
    ensures |r| == ANSWER_LEN
  {
    Record(q.cls, Selected(rules, q.name, netif))
  }

  /** One turn of the question loop: both cursors stay where they are. */
  function AnswerOne(buf: text, reqLen: nat, rules: seq<Rule>, netif: map<text, Ip>): (r: Option<text>)
    requires |buf| == DNS_MAX_LEN && reqLen + ANSWER_LEN <= DNS_MAX_LEN
    ensures r.Some? ==> |r.value| == DNS_MAX_LEN
  {
    var q := FirstOf(buf);
    if q.None? then None
    else if IsAnswered(q.value, rules, netif) then Some(Overwrite(buf, reqLen, RecordFor(q.value, rules, netif)))
    else Some(buf)
  }

  function AnswerAll(buf: text, n: nat, reqLen: nat, rules: seq<Rule>, netif: map<text, Ip>): (r: Option<text>)
    requires |buf| == DNS_MAX_LEN && (n > 0 ==> reqLen + ANSWER_LEN <= DNS_MAX_LEN)
    ensures r.Some? ==> |r.value| == DNS_MAX_LEN
    decreases n
  {
    if n == 0 then Some(buf)
    else
      var next := AnswerOne(buf, reqLen, rules, netif);
      if next.None? then None else AnswerAll(next.value, n - 1, reqLen, rules, netif)
  }

  function QuestionCount(buf: text): nat
    requires |buf| >= HEADER_LEN
  {
    var hi: int, lo: int := buf[4], buf[5];
    hi * 256 + lo
  }

  function Respond(req: text, rules: seq<Rule>, netif: map<text, Ip>): Outcome {
    if |req| > DNS_MAX_LEN then Failed
    else if !FlagTestPasses(Padded(req)[3]) then Refused
    else RespondTo(Patched(Padded(req)), |req|, rules, netif)
  }

  /** The reply from the patched buffer on: its length is settled by the question count. */
  function RespondTo(buf: text, reqLen: nat, rules: seq<Rule>, netif: map<text, Ip>): Outcome
    requires |buf| == DNS_MAX_LEN
  {
    var n := QuestionCount(buf);
    var len := n * ANSWER_LEN + reqLen;
    if len > DNS_MAX_LEN then Failed
    else
      var answered := AnswerAll(buf, n, reqLen, rules, netif);
      if answered.None? then Failed else Replied(answered.value[..len])
  }

  /** The answers still to come lead from this buffer to the goal. */
  ghost predicate Leads(buf: text, n: nat, reqLen: nat, rules: seq<Rule>, netif: map<text, Ip>, goal: Option<text>) {
    && |buf| == DNS_MAX_LEN && (n > 0 ==> reqLen + ANSWER_LEN <= DNS_MAX_LEN)
    && AnswerAll(buf, n, reqLen, rules, netif) == goal
  }

  /** What the caller learns: -1 or 0, or the length of the reply at the start of the buffer. */
  predicate Reports(outcome: Outcome, code: int, buf: text) {
    match outcome
    case Failed => code == -1
    case Refused => code == 0
    case Replied(bytes) => code == |bytes| && bytes <= buf
  }

  /** `parse_dns_request`. Every access is in bounds. */
  method ParseDnsRequest(req: text, reply: array<byte>, rules: seq<Rule>, netif: map<text, Ip>)
    returns (code: int)
    requires reply.Length == DNS_MAX_LEN
    modifies reply
    ensures Reports(Respond(req, rules, netif), code, reply[..])
  {
    if |req| > reply.Length {
      return -1;
    }
    CopyRequest(req, reply);
    if !FlagTestPasses(reply[3]) {
      return 0;
    }
    var qdCount := PatchHeader(reply);
    code := AnswerQuestions(reply, |req|, qdCount, rules, netif);
  }

  /** The length check before the question loop. */
  method AnswerQuestions(reply: array<byte>, reqLen: nat, qdCount: nat, rules: seq<Rule>, netif: map<text, Ip>)
    returns (code: int)
    requires reply.Length == DNS_MAX_LEN && qdCount == QuestionCount(reply[..])
    modifies reply
    ensures Reports(RespondTo(old(reply[..]), reqLen, rules, netif), code, reply[..])
  {
    var replyLen := qdCount * ANSWER_LEN + reqLen;
    if replyLen > reply.Length {
      return -1;
    }
    var ok := AnswerEach(reply, reqLen, qdCount, rules, netif, AnswerAll(reply[..], qdCount, reqLen, rules, netif));
    code := if ok then replyLen else -1;
  }

  /** The question loop. */
  method AnswerEach(reply: array<byte>, reqLen: nat, qdCount: nat, rules: seq<Rule>, netif: map<text, Ip>,
                    ghost goal: Option<text>)
    returns (ok: bool)
    requires reply.Length == DNS_MAX_LEN && Leads(reply[..], qdCount, reqLen, rules, netif, goal)
    modifies reply
    ensures goal == if ok then Some(reply[..]) else None
  {
    ghost var left, start := qdCount, reply[..];
    var name := new byte[NAME_MAX_LEN](_ => 0);
    assert reply[..] == start;
    for i := 0 to qdCount
      invariant left == qdCount - i && Leads(reply[..], left, reqLen, rules, netif, goal)
    {
      ok := AnswerNext(reply, reqLen, name, rules, netif, left, goal);
      if !ok {
        return;
      }
      left := left - 1;
    }
    ok := true;
    LeadsHome(reply[..], reqLen, rules, netif, goal);
  }

  lemma LeadsHome(buf: text, reqLen: nat, rules: seq<Rule>, netif: map<text, Ip>, goal: Option<text>)
    requires Leads(buf, 0, reqLen, rules, netif, goal)
    ensures goal == Some(buf)
  {
  }

  /** A question is answered, or the whole request fails. */
  method AnswerNext(reply: array<byte>, reqLen: nat, name: array<byte>, rules: seq<Rule>, netif: map<text, Ip>,
                    ghost left: nat, ghost goal: Option<text>)
    returns (ok: bool)
    requires reply != name && reply.Length == DNS_MAX_LEN && name.Length == NAME_MAX_LEN
    requires left > 0 && Leads(reply[..], left, reqLen, rules, netif, goal)
    modifies reply, name
    ensures if ok then Leads(reply[..], left - 1, reqLen, rules, netif, goal) else goal == None
  {
    LeadsOn(reply[..], left, reqLen, rules, netif, goal);
    ok := AnswerQuestion(reply, reqLen, name, rules, netif);
  }

  lemma LeadsOn(buf: text, n: nat, reqLen: nat, rules: seq<Rule>, netif: map<text, Ip>, goal: Option<text>)
    requires n > 0 && Leads(buf, n, reqLen, rules, netif, goal)
    ensures reqLen + ANSWER_LEN <= DNS_MAX_LEN
    ensures var next := AnswerOne(buf, reqLen, rules, netif);
            if next.None? then goal == None else Leads(next.value, n - 1, reqLen, rules, netif, goal)
  {
  }

  /** The memset and memcpy that prepare the reply. */
  method CopyRequest(req: text, reply: array<byte>)
    requires reply.Length == DNS_MAX_LEN && |req| <= DNS_MAX_LEN
    modifies reply
    ensures reply[..] == Padded(req)
  {
    forall i | 0 <= i < reply.Length {
      reply[i] := if i < |req| then req[i] else 0;
    }
  }

  method PatchHeader(reply: array<byte>) returns (qdCount: nat)
    requires reply.Length == DNS_MAX_LEN
    modifies reply
    ensures reply[..] == Patched(old(reply[..])) && qdCount == QuestionCount(reply[..])
  {
    reply[2] := SetQr(reply[2]);
    qdCount := QuestionCount(reply[..]);
    reply[6] := reply[4];
    reply[7] := reply[5];
  }

  /** The body of the question loop. */
  method AnswerQuestion(reply: array<byte>, reqLen: nat, name: array<byte>, rules: seq<Rule>, netif: map<text, Ip>)
    returns (ok: bool)
    requires reply != name && reply.Length == DNS_MAX_LEN && name.Length == NAME_MAX_LEN
    requires reqLen + ANSWER_LEN <= DNS_MAX_LEN
    modifies reply, name
    ensures var next := AnswerOne(old(reply[..]), reqLen, rules, netif);
            (ok <==> next.Some?) && (ok ==> reply[..] == next.value)
  {
    var q := ReadQuestion(reply, name);
    if q.None? {
      return false;
    }
    ok := true;
    AnswerIfA(reply, reqLen, q.value, rules, netif);
  }

  /** The name is parsed into `name`, and type and class are read from behind it. */
  method ReadQuestion(reply: array<byte>, name: array<byte>) returns (q: Option<Question>)
    requires reply != name && reply.Length == DNS_MAX_LEN && name.Length == NAME_MAX_LEN
    modifies name
    ensures q == FirstOf(reply[..]) && (q.Some? ==> |q.value.cls| == 2)
  {
    ghost var buf := reply[..];
    var end := ParseDnsName(reply, HEADER_LEN, name);
    if end.None? {
      return None;
    }
    ghost var parsed := NameFrom(buf, HEADER_LEN, NAME_MAX_LEN).value.0;
    SameCString(name[..], |parsed|, parsed);
    var at := end.value;
    q := Some(Question(CString(name[..]), reply[at], reply[at + 1], reply[at + 2..at + 4]));
    assert reply[..] == buf && buf[at + 2..at + 4] == reply[at + 2..at + 4];
  }

  /** An A question under a rule gets a record; any other question nothing. */
  method AnswerIfA(reply: array<byte>, reqLen: nat, q: Question, rules: seq<Rule>, netif: map<text, Ip>)
    requires reply.Length == DNS_MAX_LEN && reqLen + ANSWER_LEN <= DNS_MAX_LEN && |q.cls| == 2
    modifies reply
    ensures reply[..] == if IsAnswered(q, rules, netif)
                         then Overwrite(old(reply[..]), reqLen, RecordFor(q, rules, netif))
                         else old(reply[..])
  {
    if q.hi == 0 && q.lo == 1 {
      var ip := SelectIp(rules, q.name, netif);
      if ip == ANY_IP {
        return;
      }
      WriteAnswer(reply, reqLen, q.cls, ip);
    }
  }

  method WriteAnswer(reply: array<byte>, at: nat, cls: text, ip: Ip)
    requires |cls| == 2 && at + ANSWER_LEN <= reply.Length
    modifies reply
    ensures reply[..] == Overwrite(old(reply[..]), at, Record(cls, ip))
  {
    var answer := Record(cls, ip);
    forall i | 0 <= i < ANSWER_LEN {
      reply[at + i] := answer[i];
    }
  }

  // ---- answered queries -------------------------------------------------------------

  /** A query whose first question asks for the A record of `labels` in class `cls`. */
  ghost predicate AsksForA(req: text, labels: seq<text>, cls: text) {
    && HEADER_LEN <= |req| && |cls| == 2
    && WellFormed(labels) && |EncodeName(labels)| <= NAME_MAX_LEN + 1
    && At(req, HEADER_LEN, EncodeName(labels) + ([0, 1] + cls))
  }

  lemma AtPair(buf: text, off: nat, x: byte, y: byte)
    requires At(buf, off, [x, y])
    ensures buf[off] == x && buf[off + 1] == y
  {
    assert buf[off..off + 2][0] == buf[off] && buf[off..off + 2][1] == buf[off + 1];
  }

  lemma {:induction false} QuestionIsRead(buf: text, labels: seq<text>, cls: text, end: nat)
    requires |buf| == DNS_MAX_LEN && AsksForA(buf, labels, cls) && end == HEADER_LEN + |EncodeName(labels)|
    ensures Reads(buf, HEADER_LEN, NAME_MAX_LEN, Dotted(labels), end)
    ensures end + 4 <= |buf| && buf[end] == 0 && buf[end + 1] == 1 && buf[end + 2..end + 4] == cls
  {
    var wire := EncodeName(labels);
    AtSplitsInThree(buf, HEADER_LEN, wire + ([0, 1] + cls), wire, [0, 1], cls, end + 2);
    AtPair(buf, end, 0, 1);
    NameRoundTrips(buf, HEADER_LEN, NAME_MAX_LEN, labels, end);
  }

  lemma AtSurvives(a: text, b: text, off: nat, keep: nat, part: text)
    requires At(a, off, part) && off + |part| <= keep <= |a| && keep <= |b| && a[off..keep] == b[off..keep]
    ensures At(b, off, part)
  {
    assert a[off..off + |part|] == a[off..keep][..|part|];
    assert b[off..off + |part|] == b[off..keep][..|part|];
  }

  /** A question that lies before `keep` is still there when only the bytes from `keep` on change. */
  lemma {:induction false} QuestionSurvives(a: text, b: text, keep: nat, labels: seq<text>, cls: text)
    requires AsksForA(a, labels, cls) && keep <= |a| && keep <= |b|
    requires HEADER_LEN + |EncodeName(labels)| + 4 <= keep
    requires a[HEADER_LEN..keep] == b[HEADER_LEN..keep]
    ensures AsksForA(b, labels, cls)
  {
    AtSurvives(a, b, HEADER_LEN, keep, EncodeName(labels) + ([0, 1] + cls));
  }

  lemma OverwriteTwice(buf: text, at: nat, part: text)
    requires at + |part| <= |buf|
    ensures Overwrite(Overwrite(buf, at, part), at, part) == Overwrite(buf, at, part)
    ensures Overwrite(buf, at, part)[..at] == buf[..at]
  {
  }

  /** A name is read the same from any buffer that agrees up to its end. */
  lemma {:induction false} NameFromStable(a: text, b: text, off: nat, room: nat)
    requires |a| == |b| && off + room < |a| && NameFrom(a, off, room).Some?
    requires forall k :: 0 <= k < NameFrom(a, off, room).value.1 ==> a[k] == b[k]
    ensures NameFrom(b, off, room) == NameFrom(a, off, room)
    decreases room
  {
    var len: int := a[off];
    var next := off + len + 1;
    NameEndsLater(a, off, room);
    assert a[off + 1..off + 1 + len] == b[off + 1..off + 1 + len];
    if a[next] != 0 {
      NameFromStable(a, b, next, room - (len + 1));
    }
  }

  lemma {:induction false} NameEndsLater(a: text, off: nat, room: nat)
    requires off + room < |a| && NameFrom(a, off, room).Some?
    ensures var next := off + a[off] + 1; next < NameFrom(a, off, room).value.1
    decreases room
  {
    var len: int := a[off];
    var next := off + len + 1;
    if a[next] != 0 {
      NameEndsLater(a, next, room - (len + 1));
    }
  }

  /** The first question, if its name can be read at all, lies within the first `reqLen` bytes. */
  predicate FirstInside(buf: text, reqLen: nat)
    requires |buf| == DNS_MAX_LEN
  {
    var parsed := NameFrom(buf, HEADER_LEN, NAME_MAX_LEN);
    parsed.Some? ==> parsed.value.1 + 4 <= reqLen
  }

  /** Its name is read, its type is A, and a rule gives an address. */
  predicate FirstAnswered(buf: text, rules: seq<Rule>, netif: map<text, Ip>)
    requires |buf| == DNS_MAX_LEN
  {
    var q := FirstOf(buf); q.Some? && IsAnswered(q.value, rules, netif)
  }

  function FirstRecord(buf: text, rules: seq<Rule>, netif: map<text, Ip>): (r: text)
    requires |buf| == DNS_MAX_LEN
    ensures |r| == ANSWER_LEN
  {
    if FirstAnswered(buf, rules, netif) then RecordFor(FirstOf(buf).value, rules, netif) else Zeros(ANSWER_LEN)
  }

  lemma SameBefore(buf: text, at: nat, part: text, k: nat)
    requires at + |part| <= |buf| && k < at
    ensures Overwrite(buf, at, part)[k] == buf[k]
  {
  }

  lemma NameUndisturbed(buf: text, reqLen: nat, part: text)
    requires |buf| == DNS_MAX_LEN && reqLen + |part| <= DNS_MAX_LEN && FirstInside(buf, reqLen)
    requires NameFrom(buf, HEADER_LEN, NAME_MAX_LEN).Some?
    ensures NameFrom(Overwrite(buf, reqLen, part), HEADER_LEN, NAME_MAX_LEN) == NameFrom(buf, HEADER_LEN, NAME_MAX_LEN)
  {
    var next := Overwrite(buf, reqLen, part);
    forall k | 0 <= k < NameFrom(buf, HEADER_LEN, NAME_MAX_LEN).value.1 ensures buf[k] == next[k] {
      SameBefore(buf, reqLen, part, k);
    }
    NameFromStable(buf, next, HEADER_LEN, NAME_MAX_LEN);
  }

  lemma SameQuestion(a: text, b: text, end: nat)
    requires |a| == |b| == DNS_MAX_LEN
    requires NameFrom(a, HEADER_LEN, NAME_MAX_LEN) == NameFrom(b, HEADER_LEN, NAME_MAX_LEN)
    requires FirstOf(a).Some? && end == NameFrom(a, HEADER_LEN, NAME_MAX_LEN).value.1
    requires forall k :: end <= k < end + 4 ==> a[k] == b[k]
    ensures FirstOf(a) == FirstOf(b)
  {
    assert a[end + 2..end + 4] == b[end + 2..end + 4];
  }

  /** The first question looks the same after bytes behind it were written. */
  lemma {:induction false} FirstUndisturbed(buf: text, reqLen: nat, part: text)
    requires |buf| == DNS_MAX_LEN && reqLen + |part| <= DNS_MAX_LEN && FirstInside(buf, reqLen)
    requires FirstOf(buf).Some?
    ensures FirstOf(Overwrite(buf, reqLen, part)) == FirstOf(buf)
  {
    var next, end := Overwrite(buf, reqLen, part), NameFrom(buf, HEADER_LEN, NAME_MAX_LEN).value.1;
    NameUndisturbed(buf, reqLen, part);
    forall k | end <= k < end + 4 ensures buf[k] == next[k] {
      SameBefore(buf, reqLen, part, k);
    }
    SameQuestion(buf, next, end);
  }

  lemma AnswerOneIs(buf: text, reqLen: nat, rules: seq<Rule>, netif: map<text, Ip>)
    requires |buf| == DNS_MAX_LEN && reqLen + ANSWER_LEN <= DNS_MAX_LEN
    ensures AnswerOne(buf, reqLen, rules, netif) ==
            if FirstOf(buf).None? then None
            else if FirstAnswered(buf, rules, netif) then Some(Overwrite(buf, reqLen, FirstRecord(buf, rules, netif)))
            else Some(buf)
  {
  }

  /** A second turn of the loop changes nothing. */
  lemma {:induction false} AnsweringTwice(buf: text, reqLen: nat, rules: seq<Rule>, netif: map<text, Ip>)
    requires |buf| == DNS_MAX_LEN && reqLen + ANSWER_LEN <= DNS_MAX_LEN && FirstInside(buf, reqLen)
    requires AnswerOne(buf, reqLen, rules, netif).Some?
    ensures var next := AnswerOne(buf, reqLen, rules, netif).value;
            FirstInside(next, reqLen) && AnswerOne(next, reqLen, rules, netif) == Some(next)
  {
    AnswerOneIs(buf, reqLen, rules, netif);
    if FirstAnswered(buf, rules, netif) {
      var record := FirstRecord(buf, rules, netif);
      FirstUndisturbed(buf, reqLen, record);
      NameUndisturbed(buf, reqLen, record);
      AnswerOneIs(Overwrite(buf, reqLen, record), reqLen, rules, netif);
      OverwriteTwice(buf, reqLen, record);
    }
  }

  /** The cursors never advance: any number of questions has the effect of the first one. */
  lemma {:induction false} FirstQuestionOnly(buf: text, n: nat, reqLen: nat, rules: seq<Rule>, netif: map<text, Ip>)
    requires |buf| == DNS_MAX_LEN && n > 0 && reqLen + ANSWER_LEN <= DNS_MAX_LEN && FirstInside(buf, reqLen)
    ensures AnswerAll(buf, n, reqLen, rules, netif) == AnswerOne(buf, reqLen, rules, netif)
    decreases n
  {
    var first := AnswerOne(buf, reqLen, rules, netif);
    if first.Some? {
      if n == 1 {
        assert AnswerAll(first.value, 0, reqLen, rules, netif) == first;
      } else {
        AnsweringTwice(buf, reqLen, rules, netif);
        FirstQuestionOnly(first.value, n - 1, reqLen, rules, netif);
      }
    }
  }

  lemma {:induction false} PreparedBuffer(req: text)
    requires HEADER_LEN <= |req| <= DNS_MAX_LEN
    ensures var buf := Patched(Padded(req));
            && buf[..|req|] == Patched(req) && buf[|req|..] == Zeros(DNS_MAX_LEN - |req|)
            && QuestionCount(buf) == QuestionCount(req) && Padded(req)[3] == req[3]
            && buf[HEADER_LEN..|req|] == req[HEADER_LEN..]
  {
  }

  lemma {:induction false} RepliedWith(req: text, rules: seq<Rule>, netif: map<text, Ip>, n: nat, last: text)
    requires |req| <= DNS_MAX_LEN && FlagTestPasses(Padded(req)[3]) && n == QuestionCount(Patched(Padded(req)))
    requires n > 0 && n * ANSWER_LEN + |req| <= DNS_MAX_LEN
    requires AnswerAll(Patched(Padded(req)), n, |req|, rules, netif) == Some(last)
    ensures Respond(req, rules, netif) == Replied(last[..n * ANSWER_LEN + |req|])
  {
  }

  lemma {:induction false} ReplyBytes(buf: text, reqLen: nat, record: text, n: nat)
    requires |buf| == DNS_MAX_LEN && |record| == ANSWER_LEN && n > 0 && reqLen + n * ANSWER_LEN <= DNS_MAX_LEN
    requires buf[reqLen..] == Zeros(DNS_MAX_LEN - reqLen)
    ensures Overwrite(buf, reqLen, record)[..n * ANSWER_LEN + reqLen] ==
            buf[..reqLen] + (record + Zeros((n - 1) * ANSWER_LEN))
  {
    var a := Overwrite(buf, reqLen, record)[..n * ANSWER_LEN + reqLen];
    forall i | reqLen + ANSWER_LEN <= i < |a| ensures a[i] == 0 {
      assert a[i] == buf[i] == buf[reqLen..][i - reqLen];
    }
  }

  // ---- what the header says of the answers ------------------------------------------

  function Prepared(req: text): (buf: text)
    requires HEADER_LEN <= |req| <= DNS_MAX_LEN
    ensures |buf| == DNS_MAX_LEN
  {
    Patched(Padded(req))
  }

  /** A request that gets a reply: it passes the test, the reply fits, and its first question, if any, is whole. */
  predicate Replyable(req: text) {
    && HEADER_LEN <= |req| <= DNS_MAX_LEN && FlagTestPasses(req[3])
    && |req| + QuestionCount(req) * ANSWER_LEN <= DNS_MAX_LEN
    && (QuestionCount(req) > 0 ==>
          FirstInside(Prepared(req), |req|) && FirstOf(Prepared(req)).Some?)
  }

  /** What stands behind the request in the reply. */
  function AnswerSection(req: text, rules: seq<Rule>, netif: map<text, Ip>): text
    requires Replyable(req)
  {
    if QuestionCount(req) == 0 then []
    else FirstRecord(Prepared(req), rules, netif) + Zeros((QuestionCount(req) - 1) * ANSWER_LEN)
  }

  lemma OverwriteZeros(buf: text, reqLen: nat)
    requires |buf| == DNS_MAX_LEN && reqLen + ANSWER_LEN <= DNS_MAX_LEN
    requires buf[reqLen..] == Zeros(DNS_MAX_LEN - reqLen)
    ensures Overwrite(buf, reqLen, Zeros(ANSWER_LEN)) == buf
  {
    assert buf[reqLen..reqLen + ANSWER_LEN] == buf[reqLen..][..ANSWER_LEN];
  }

  lemma {:induction false} NothingAsked(req: text, rules: seq<Rule>, netif: map<text, Ip>)
    requires Replyable(req) && QuestionCount(req) == 0
    ensures Respond(req, rules, netif) == Replied(Patched(req))
  {
    PreparedBuffer(req);
    assert AnswerAll(Prepared(req), 0, |req|, rules, netif) == Some(Prepared(req));
  }

  /** The buffer after all questions. */
  lemma {:induction false} LastBuffer(req: text, rules: seq<Rule>, netif: map<text, Ip>)
    requires Replyable(req) && QuestionCount(req) > 0
    ensures var buf := Prepared(req);
            AnswerAll(buf, QuestionCount(req), |req|, rules, netif)
            == Some(Overwrite(buf, |req|, FirstRecord(buf, rules, netif)))
  {
    var buf := Prepared(req);
    PreparedBuffer(req);
    FirstQuestionOnly(buf, QuestionCount(req), |req|, rules, netif);
    AnswerOneIs(buf, |req|, rules, netif);
    OverwriteZeros(buf, |req|);
  }

  lemma {:induction false} SomethingAsked(req: text, rules: seq<Rule>, netif: map<text, Ip>)
    requires Replyable(req) && QuestionCount(req) > 0
    ensures var buf, len := Prepared(req), QuestionCount(req) * ANSWER_LEN + |req|;
            Respond(req, rules, netif) == Replied(Overwrite(buf, |req|, FirstRecord(buf, rules, netif))[..len])
  {
    var buf := Prepared(req);
    PreparedBuffer(req);
    LastBuffer(req, rules, netif);
    RepliedWith(req, rules, netif, QuestionCount(req), Overwrite(buf, |req|, FirstRecord(buf, rules, netif)));
  }

  lemma SectionBytes(req: text, rules: seq<Rule>, netif: map<text, Ip>)
    requires Replyable(req) && QuestionCount(req) > 0
    ensures var buf, len := Prepared(req), QuestionCount(req) * ANSWER_LEN + |req|;
            Overwrite(buf, |req|, FirstRecord(buf, rules, netif))[..len]
            == Patched(req) + AnswerSection(req, rules, netif)
  {
    PreparedBuffer(req);
    ReplyBytes(Prepared(req), |req|, FirstRecord(Prepared(req), rules, netif), QuestionCount(req));
  }

  /** Every such request is replied to with itself, QR and the counts patched, and the answer section. */
  lemma {:induction false} ReplyInGeneral(req: text, rules: seq<Rule>, netif: map<text, Ip>)
    requires Replyable(req)
    ensures Respond(req, rules, netif) == Replied(Patched(req) + AnswerSection(req, rules, netif))
  {
    if QuestionCount(req) == 0 {
      NothingAsked(req, rules, netif);
      assert Patched(req) + [] == Patched(req);
    } else {
      SomethingAsked(req, rules, netif);
      SectionBytes(req, rules, netif);
    }
  }

  lemma {:induction false} AQueryIsRead(req: text, labels: seq<text>, cls: text)
    requires AsksForA(req, labels, cls) && |req| <= DNS_MAX_LEN
    ensures FirstInside(Prepared(req), |req|)
    ensures FirstOf(Prepared(req)) == Some(Question(CString(Dotted(labels)), 0, 1, cls))
  {
    PreparedBuffer(req);
    assert req[HEADER_LEN..|req|] == req[HEADER_LEN..];
    QuestionSurvives(req, Prepared(req), |req|, labels, cls);
    QuestionIsRead(Prepared(req), labels, cls, HEADER_LEN + |EncodeName(labels)|);
  }

  /**
   * An A query under a matching rule with a real address is answered with the request, QR set and the
   * answer count equal to the question count, then one record, then zeros for any further question.
   */
  lemma {:induction false} AQueryIsAnswered(req: text, labels: seq<text>, cls: text, rules: seq<Rule>,
                                            netif: map<text, Ip>)
    requires AsksForA(req, labels, cls) && FlagTestPasses(req[3])
    requires QuestionCount(req) > 0 && |req| + QuestionCount(req) * ANSWER_LEN <= DNS_MAX_LEN
    requires Selected(rules, CString(Dotted(labels)), netif) != ANY_IP
    ensures Respond(req, rules, netif) ==
            Replied(Patched(req) + (Record(cls, Selected(rules, CString(Dotted(labels)), netif))
                                    + Zeros((QuestionCount(req) - 1) * ANSWER_LEN)))
  {
    AQueryIsRead(req, labels, cls);
    ReplyInGeneral(req, rules, netif);
  }

  function AnswerCount(reply: text): nat
    requires |reply| >= HEADER_LEN
  {
    var hi: int, lo: int := reply[6], reply[7];
    hi * 256 + lo
  }

  /** The records of an answer section: a record starts with a compression pointer, a blank with the root name. */
  function RecordsIn(section: text): nat {
    if |section| < ANSWER_LEN then 0
    else (if section[0] >= 0xC0 then 1 else 0) + RecordsIn(section[ANSWER_LEN..])
  }

  lemma {:induction false} NoRecordsInZeros(n: nat)
    ensures RecordsIn(Zeros(n)) == 0
  {
    if n >= ANSWER_LEN {
      assert Zeros(n)[ANSWER_LEN..] == Zeros(n - ANSWER_LEN);
      NoRecordsInZeros(n - ANSWER_LEN);
    }
  }

  lemma RecordsInSection(req: text, rules: seq<Rule>, netif: map<text, Ip>)
    requires Replyable(req)
    ensures RecordsIn(AnswerSection(req, rules, netif)) ==
            if QuestionCount(req) > 0 && FirstAnswered(Prepared(req), rules, netif) then 1 else 0
  {
    var n := QuestionCount(req);
    if n > 0 {
      var record, blanks := FirstRecord(Prepared(req), rules, netif), Zeros((n - 1) * ANSWER_LEN);
      assert (record + blanks)[ANSWER_LEN..] == blanks && (record + blanks)[0] == record[0];
      NoRecordsInZeros((n - 1) * ANSWER_LEN);
    }
  }

  /**
   * The header counts the records truly exactly if nothing was asked, or one question was and it was
   * answered.
   */
  lemma HonestCountExactly(req: text, rules: seq<Rule>, netif: map<text, Ip>)
    requires Replyable(req)
    ensures var section := AnswerSection(req, rules, netif);
            && Respond(req, rules, netif) == Replied(Patched(req) + section)
            && (AnswerCount(Patched(req) + section) == RecordsIn(section) <==>
                  || QuestionCount(req) == 0
                  || (QuestionCount(req) == 1 && FirstAnswered(Prepared(req), rules, netif)))
  {
    ReplyInGeneral(req, rules, netif);
    RecordsInSection(req, rules, netif);
    CountIsCopied(req, AnswerSection(req, rules, netif));
  }

  lemma CountIsCopied(req: text, section: text)
    requires |req| >= HEADER_LEN
    ensures AnswerCount(Patched(req) + section) == QuestionCount(req)
  {
  }

  /** A single question of another type, such as AAAA, is replied to with one answer counted and sixteen zeros. */
  lemma OtherTypeGetsBlank(req: text, rules: seq<Rule>, netif: map<text, Ip>)
    requires Replyable(req) && QuestionCount(req) == 1
    requires var q := FirstOf(Prepared(req)).value; !(q.hi == 0 && q.lo == 1)
    ensures Respond(req, rules, netif) == Replied(Patched(req) + Zeros(ANSWER_LEN))
    ensures AnswerCount(Patched(req) + Zeros(ANSWER_LEN)) == 1
  {
    ReplyInGeneral(req, rules, netif);
    CountIsCopied(req, Zeros(ANSWER_LEN));
    assert Zeros(ANSWER_LEN) + Zeros(0) == Zeros(ANSWER_LEN);
  }

  /** A name as RFC 1035 section 3.1 reads it: labels of at most 63 octets up to the zero octet. */
  function ReadLabels(buf: text, off: nat): Option<seq<text>>
    decreases |buf| - off
  {
    if off >= |buf| then None
    else if buf[off] == 0 then Some([])
    else if buf[off] > 63 || off + 1 + buf[off] > |buf| then None
    else
      var len: int := buf[off];
      var more := ReadLabels(buf, off + 1 + len);
      if more.None? then None else Some([buf[off + 1..off + 1 + len]] + more.value)
  }

  lemma {:induction false} EncodedNameIsRead(buf: text, off: nat, labels: seq<text>)
    requires WellFormed(labels) && At(buf, off, EncodeName(labels))
    requires forall i :: 0 <= i < |labels| ==> |labels[i]| <= 63
    ensures ReadLabels(buf, off) == Some(labels)
    decreases |labels|
  {
    var rest, next := labels[1..], off + 1 + |labels[0]|;
    NameHead(buf, off, labels, next);
    NameStep(buf, off, labels, next);
    if rest == [] {
      assert ReadLabels(buf, next) == Some(rest);
    } else {
      EncodedNameIsRead(buf, next, rest);
    }
    LabelIsRead(buf, off, labels[0], next, rest);
    assert [labels[0]] + rest == labels;
  }

  lemma {:induction false} LabelIsRead(buf: text, off: nat, part: text, next: nat, rest: seq<text>)
    requires off < |buf| && buf[off] == |part| && 1 <= |part| <= 63 && At(buf, off + 1, part)
    requires next == off + 1 + |part| && ReadLabels(buf, next) == Some(rest)
    ensures ReadLabels(buf, off) == Some([part] + rest)
  {
  }

  /** Where a two-octet compression pointer leads (section 4.1.4 of RFC 1035). */
  function PointerTarget(hi: byte, lo: byte): nat
    requires hi >= 0xC0
  {
    var h: int, l: int := hi, lo;
    (h - 0xC0) * 256 + l
  }

  lemma {:induction false} NameStaysReadable(req: text, labels: seq<text>, cls: text, tail: text)
    requires AsksForA(req, labels, cls) && forall i :: 0 <= i < |labels| ==> |labels[i]| <= 63
    ensures ReadLabels(Patched(req) + tail, HEADER_LEN) == Some(labels)
  {
    var r := Patched(req) + tail;
    assert r[HEADER_LEN..|req|] == req[HEADER_LEN..|req|];
    QuestionSurvives(req, r, |req|, labels, cls);
    AtSplits(r, HEADER_LEN, EncodeName(labels), [0, 1] + cls);
    EncodedNameIsRead(r, HEADER_LEN, labels);
  }

  lemma RecordBytes(cls: text, ip: Ip)
    requires |cls| == 2
    ensures var r := Record(cls, ip);
            && r[0] >= 0xC0 && PointerTarget(r[0], r[1]) == HEADER_LEN
            && r[2..6] == [0, 1] + cls && r[10..16] == [0, 4] + ip
  {
  }

  /**
   * In the reply the record's pointer leads to the queried name, its type is A in the class asked for, and
   * its data are the four octets of the address; the header says response, and as many answers as questions.
   */
  lemma {:induction false} AnswerNamesTheQuestion(req: text, labels: seq<text>, cls: text, ip: Ip, more: text)
    requires AsksForA(req, labels, cls) && forall i :: 0 <= i < |labels| ==> |labels[i]| <= 63
    ensures var r, record := Patched(req) + (Record(cls, ip) + more), Record(cls, ip);
            && r[|req|..|req| + ANSWER_LEN] == record
            && record[0] >= 0xC0 && PointerTarget(record[0], record[1]) == HEADER_LEN
            && record[2..6] == [0, 1] + cls && record[10..16] == [0, 4] + ip
            && ReadLabels(r, HEADER_LEN) == Some(labels)
            && r[2] >= 128 && r[6] == req[4] && r[7] == req[5]
  {
    NameStaysReadable(req, labels, cls, Record(cls, ip) + more);
    RecordBytes(cls, ip);
  }

  /** The opcode as section 4.1.1 of RFC 1035 lays it out: four bits of the first flag byte. */
  predicate StandardQuery(low: byte) { low / 8 % 16 == 0 }

  /**
   * The flag test looks at the other flag byte: whatever the opcode, a request is refused exactly if bits
   * 3 to 6 of octet 3 are not all zero; so it is refused for its opcode exactly if those of octet 2 agree.
   */
  lemma FlagTestIsNotTheOpcode(req: text, rules: seq<Rule>, netif: map<text, Ip>)
    requires HEADER_LEN <= |req| <= DNS_MAX_LEN
    ensures Respond(req, rules, netif) == Refused <==> req[3] / 8 % 16 != 0
    ensures (Respond(req, rules, netif) == Refused <==> !StandardQuery(req[2])) <==>
              (req[2] / 8 % 16 == 0 <==> req[3] / 8 % 16 == 0)
  {
    assert Padded(req)[3] == req[3];
  }

  /** A standard query that is refused, and a status query that is not. */
  lemma FlagTestErrsBothWays(req: text, rules: seq<Rule>, netif: map<text, Ip>)
    requires HEADER_LEN <= |req| <= DNS_MAX_LEN
    ensures req[2] == 1 && req[3] == 0x20 ==> StandardQuery(req[2]) && Respond(req, rules, netif) == Refused
    ensures req[2] == 0x10 && req[3] == 0 ==> !StandardQuery(req[2]) && Respond(req, rules, netif) != Refused
  {
    assert 1 / 8 % 16 == 0 && 0x20 / 8 % 16 != 0 && 0x10 / 8 % 16 != 0;
    FlagTestIsNotTheOpcode(req, rules, netif);
  }
}
