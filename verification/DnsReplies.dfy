/**
 * What the DNS responder's replies say, octet by octet: which rule's address an A query gets, and what of the
 * request comes back unchanged.
 */
module DnsReplies {
  import opened Common
  import opened Dns

  // ---- the request comes back -------------------------------------------------------

  /**
   * A reply starts with the request: its ID, flags, question count and everything from octet 8 on come back,
   * except that QR is set and the answer count is the question count.
   */
  ghost predicate StartsWithRequest(r: text, req: text)
    requires |req| >= HEADER_LEN
  {
    && |r| >= |req| && r[0] == req[0] && r[1] == req[1]
    && r[2] >= 128 && r[2] % 128 == req[2] % 128 && r[3] == req[3]
    && r[4] == req[4] && r[5] == req[5] && r[6] == req[4] && r[7] == req[5]
    && r[8..|req|] == req[8..]
  }

  lemma PatchedStarts(req: text)
    requires |req| >= HEADER_LEN
    ensures StartsWithRequest(Patched(req), req)
  {
  }

  lemma StartsByPrefix(a: text, b: text, req: text)
    requires |req| >= HEADER_LEN && StartsWithRequest(a, req) && |b| >= |req| && a[..|req|] == b[..|req|]
    ensures StartsWithRequest(b, req)
  {
    assert forall k :: 0 <= k < |req| ==> a[..|req|][k] == b[..|req|][k];
    assert a[8..|req|] == a[..|req|][8..] && b[8..|req|] == b[..|req|][8..];
  }

  lemma OneAnswerLiesBehind(buf: text, reqLen: nat, rules: seq<Rule>, netif: map<text, Ip>)
    requires |buf| == DNS_MAX_LEN && reqLen + ANSWER_LEN <= DNS_MAX_LEN
    ensures var next := AnswerOne(buf, reqLen, rules, netif);
            next.Some? ==> next.value[..reqLen] == buf[..reqLen]
  {
    if FirstOf(buf).Some? {
      OverwriteTwice(buf, reqLen, RecordFor(FirstOf(buf).value, rules, netif));
    }
  }

  /** One turn of the loop: nothing before the request's end is touched. */
  lemma {:induction false} OneTurn(buf: text, n: nat, reqLen: nat, rules: seq<Rule>, netif: map<text, Ip>,
                                   last: Option<text>) returns (next: Option<text>)
    requires n > 0 && Leads(buf, n, reqLen, rules, netif, last)
    ensures next.None? ==> last == None
    ensures next.Some? ==> Leads(next.value, n - 1, reqLen, rules, netif, last)
    ensures reqLen + ANSWER_LEN <= DNS_MAX_LEN
    ensures next.Some? ==> |next.value| == |buf| && next.value[..reqLen] == buf[..reqLen]
  {
    LeadsOn(buf, n, reqLen, rules, netif, last);
    next := AnswerOne(buf, reqLen, rules, netif);
    OneAnswerLiesBehind(buf, reqLen, rules, netif);
  }

  /** Answers are written behind the request. */
  lemma {:induction false} AnswersLieBehind(buf: text, n: nat, reqLen: nat, rules: seq<Rule>, netif: map<text, Ip>,
                                            last: Option<text>)
    requires reqLen <= DNS_MAX_LEN && Leads(buf, n, reqLen, rules, netif, last)
    ensures last.Some? ==> |last.value| == |buf| && last.value[..reqLen] == buf[..reqLen]
    decreases n
  {
    if n == 0 {
      LeadsHome(buf, reqLen, rules, netif, last);
    } else {
      var next := OneTurn(buf, n, reqLen, rules, netif, last);
      if next.Some? {
        AnswersLieBehind(next.value, n - 1, reqLen, rules, netif, last);
      }
    }
  }

  /** Every reply to a request with a whole header starts with it, whatever was asked and wherever its questions end. */
  lemma ReplyStartsWithRequest(req: text, rules: seq<Rule>, netif: map<text, Ip>)
    requires |req| >= HEADER_LEN && Respond(req, rules, netif).Replied?
    ensures StartsWithRequest(Respond(req, rules, netif).bytes, req)
  {
    var buf, n, r := Prepared(req), QuestionCount(Prepared(req)), Respond(req, rules, netif).bytes;
    PreparedBuffer(req);
    PatchedStarts(req);
    var last := AnswerAll(buf, n, |req|, rules, netif).value;
    AnswersLieBehind(buf, n, |req|, rules, netif, Some(last));
    assert r == last[..n * ANSWER_LEN + |req|];
    assert r[..|req|] == last[..|req|];
    StartsByPrefix(Patched(req), r, req);
  }

  // ---- when no reply is made --------------------------------------------------------

  /**
   * The code gives up exactly on a request that is too long, or one not refused whose answers do not fit or whose
   * first question is asked for and cannot be read.
   */
  lemma {:induction false} FailsExactly(req: text, rules: seq<Rule>, netif: map<text, Ip>)
    requires HEADER_LEN <= |req|
    requires |req| <= DNS_MAX_LEN ==> FirstInside(Prepared(req), |req|)
    ensures Respond(req, rules, netif) == Failed <==>
              || |req| > DNS_MAX_LEN
              || (&& req[3] / 8 % 16 == 0
                  && (|| |req| + QuestionCount(req) * ANSWER_LEN > DNS_MAX_LEN
                      || (QuestionCount(req) > 0 && NameFrom(Prepared(req), HEADER_LEN, NAME_MAX_LEN).None?)))
  {
    if |req| <= DNS_MAX_LEN {
      PreparedBuffer(req);
      var buf, n := Prepared(req), QuestionCount(req);
      if n > 0 && |req| + n * ANSWER_LEN <= DNS_MAX_LEN {
        FirstQuestionOnly(buf, n, |req|, rules, netif);
      }
    }
  }

  // ---- which address is given -------------------------------------------------------

  /**
   * A rule is taken for a name if it is called "*" or by the name, and has an interface, or has none in a table
   * whose first address is not zero.
   */
  predicate Taken(rules: seq<Rule>, i: nat, name: text)
    requires i < |rules|
  {
    (rules[i].name == [42] || rules[i].name == name) && (rules[i].ifKey.Some? || rules[0].ip != [0, 0, 0, 0])
  }

  /** `i` is the first rule taken for the name, or the end of the table. */
  ghost predicate FirstTaken(rules: seq<Rule>, i: nat, name: text) {
    i <= |rules| && (i < |rules| ==> Taken(rules, i, name)) && forall j :: 0 <= j < i ==> !Taken(rules, j, name)
  }

  /** `ip` is the address of that rule's interface, or the rule's own; zero if there is none. */
  predicate Gives(rules: seq<Rule>, i: nat, netif: map<text, Ip>, ip: Ip) {
    if i >= |rules| then ip == [0, 0, 0, 0]
    else if rules[i].ifKey.None? then ip == rules[i].ip
    else if rules[i].ifKey.value in netif then ip == netif[rules[i].ifKey.value]
    else ip == [0, 0, 0, 0]
  }

  lemma TakenSettles(rules: seq<Rule>, i: nat, name: text)
    requires i < |rules|
    ensures Taken(rules, i, name) <==> Settles(rules, i, name)
  {
  }

  lemma TakenIsSelected(rules: seq<Rule>, i: nat, name: text, netif: map<text, Ip>, ip: Ip)
    requires FirstTaken(rules, i, name) && Gives(rules, i, netif, ip)
    ensures Selected(rules, name, netif) == ip
  {
    forall j | 0 <= j < i ensures !Settles(rules, j, name) {
      TakenSettles(rules, j, name);
    }
    if i < |rules| {
      TakenSettles(rules, i, name);
      FirstSettles(rules, name, i);
    } else {
      NoneSettles(rules, name);
    }
  }

  /** The whole reply to an A query under such a rule: the request, then one record, or none, then zeros. */
  ghost predicate Answers(r: text, req: text, cls: text, ip: Ip)
    requires |req| >= HEADER_LEN && |cls| == 2
  {
    && |r| == |req| + QuestionCount(req) * ANSWER_LEN && StartsWithRequest(r, req)
    && (if ip == [0, 0, 0, 0] then forall k :: |req| <= k < |r| ==> r[k] == 0
        else
          && |r| >= |req| + ANSWER_LEN
          && r[|req|..|req| + 12] == [0xC0, 12, 0, 1] + cls + [0, 0, 1, 44, 0, 4]
          && r[|req| + 12..|req| + 16] == ip
          && forall k :: |req| + ANSWER_LEN <= k < |r| ==> r[k] == 0)
  }

  lemma BehindRequest(req: text, tail: text)
    requires |req| >= HEADER_LEN
    ensures var r := Patched(req) + tail; StartsWithRequest(r, req) && r[|req|..] == tail
  {
    var r := Patched(req) + tail;
    assert r[..|req|] == Patched(req) == Patched(req)[..|req|];
    PatchedStarts(req);
    StartsByPrefix(Patched(req), r, req);
  }

  lemma RecordAt(req: text, cls: text, ip: Ip, n: nat)
    requires |req| >= HEADER_LEN && |cls| == 2 && n == QuestionCount(req) && n > 0 && ip != ANY_IP
    ensures Answers(Patched(req) + (Record(cls, ip) + Zeros((n - 1) * ANSWER_LEN)), req, cls, ip)
  {
    var tail := Record(cls, ip) + Zeros((n - 1) * ANSWER_LEN);
    var r := Patched(req) + tail;
    BehindRequest(req, tail);
    assert r[|req|..|req| + 12] == tail[..12] == Record(cls, ip)[..12];
    assert r[|req| + 12..|req| + 16] == tail[12..16] == ip;
  }

  lemma BlankAt(req: text, cls: text, n: nat)
    requires |req| >= HEADER_LEN && |cls| == 2 && n == QuestionCount(req) && n > 0
    ensures Answers(Patched(req) + (Zeros(ANSWER_LEN) + Zeros((n - 1) * ANSWER_LEN)), req, cls, ANY_IP)
  {
    BehindRequest(req, Zeros(ANSWER_LEN) + Zeros((n - 1) * ANSWER_LEN));
  }

  /**
   * An A query that is not refused and fits gets the address of the first rule taken for its name: of the
   * interface if the rule has one and it is known, else the rule's own. If that is zero or no rule is taken, there
   * is no record.
   */
  lemma AQueryGetsFirstRule(req: text, labels: seq<text>, cls: text, rules: seq<Rule>, netif: map<text, Ip>,
                            i: nat, ip: Ip)
    requires AsksForA(req, labels, cls) && req[3] / 8 % 16 == 0
    requires QuestionCount(req) > 0 && |req| + QuestionCount(req) * ANSWER_LEN <= DNS_MAX_LEN
    requires FirstTaken(rules, i, CString(Dotted(labels))) && Gives(rules, i, netif, ip)
    ensures Respond(req, rules, netif).Replied? && Answers(Respond(req, rules, netif).bytes, req, cls, ip)
  {
    var n := QuestionCount(req);
    AQueryIsRead(req, labels, cls);
    ReplyInGeneral(req, rules, netif);
    TakenIsSelected(rules, i, CString(Dotted(labels)), netif, ip);
    if ip == ANY_IP {
      BlankAt(req, cls, n);
    } else {
      RecordAt(req, cls, ip, n);
    }
  }

  /** The firmware's own table, one rule "*" for an interface: every such query gets the interface's address. */
  lemma EveryNameGetsTheInterface(req: text, labels: seq<text>, cls: text, key: text, own: Ip, netif: map<text, Ip>)
    requires AsksForA(req, labels, cls) && req[3] / 8 % 16 == 0
    requires QuestionCount(req) > 0 && |req| + QuestionCount(req) * ANSWER_LEN <= DNS_MAX_LEN
    requires key in netif
    ensures var r := Respond(req, [Rule([42], Some(key), own)], netif);
            r.Replied? && Answers(r.bytes, req, cls, netif[key])
  {
    AQueryGetsFirstRule(req, labels, cls, [Rule([42], Some(key), own)], netif, 0, netif[key]);
  }
}
