/**
 * The provisioning form: the portal's percent-encoder (pi/portal.py, section 2.1 of RFC 3986)
 * and the firmware's in-place decoder and field scan (test-firmware/main/wifi_prov.c).
 * Bytes are ASCII codes; a C string is the bytes before the first NUL.
 */
module UrlForm {
  import opened Common

  const SPACE: byte := 32
  const PERCENT: byte := 37
  const AMPERSAND: byte := 38
  const PLUS: byte := 43
  const MINUS: byte := 45
  const EQUALS: byte := 61

  const SSID: text := [115, 115, 105, 100]
  const PASSWORD: text := [112, 97, 115, 115, 119, 111, 114, 100]

  // ---- the decoder ------------------------------------------------------------------

  function HexDigit(c: byte): (r: Option<nat>)
    ensures r.Some? ==> r.value < 16
  {
    if 48 <= c <= 57 then Some(c - 48)
    else if 65 <= c <= 70 then Some(c - 55)
    else if 97 <= c <= 102 then Some(c - 87)
    else None
  }

  function DigitOrZero(c: byte): nat { var d := HexDigit(c); if d.Some? then d.value else 0 }

  /** `(char)strtol` in base 16 of a two-character string: white space and a sign may come first. */
  function HexPair(a: byte, b: byte): byte {
    var d, e := HexDigit(a), HexDigit(b);
    if a == SPACE || 9 <= a <= 13 || a == PLUS then DigitOrZero(b)
    else if a == MINUS then (256 - DigitOrZero(b)) % 256
    else if d.Some? && e.Some? then 16 * d.value + e.value
    else if d.Some? then d.value
    else 0
  }

  /** What the text of a C string decodes to; it may hold a NUL when the text has %00. */
  function Decode(s: text): (r: text)
    ensures |r| <= |s|
  {
    if s == [] then []
    else if s[0] == PLUS then [SPACE] + Decode(s[1..])
    else if s[0] == PERCENT && |s| >= 3 then [HexPair(s[1], s[2])] + Decode(s[3..])
    else [s[0]] + Decode(s[1..])
  }

  /** How far one turn of the decoder reads, and the byte it yields. */
  function Turn(s: text): (r: (nat, byte))
    requires s != []
    ensures 0 < r.0 <= |s| && Decode(s) == [r.1] + Decode(s[r.0..])
  {
    if s[0] == PLUS then (1, SPACE)
    else if s[0] == PERCENT && |s| >= 3 then (3, HexPair(s[1], s[2]))
    else (1, s[0])
  }

  /** `done` is what the first `src` bytes of the source decode to. */
  ghost predicate DecodedUpTo(source: text, src: nat, done: text) {
    src <= |source| && |done| <= src && done + Decode(source[src..]) == Decode(source)
  }

  lemma DecodeStarts(source: text)
    ensures DecodedUpTo(source, 0, [])
  {
    assert source[0..] == source && [] + Decode(source) == Decode(source);
  }

  /** One turn moves a byte from what is left to what is done. */
  lemma TurnAdvances(source: text, src: nat, done: text, n: nat, b: byte)
    requires src < |source| && DecodedUpTo(source, src, done) && (n, b) == Turn(source[src..])
    ensures DecodedUpTo(source, src + n, done + [b])
  {
    assert source[src..][n..] == source[src + n..];
    ConcatAssociates(done, [b], Decode(source[src + n..]));
  }

  lemma DecodeEnds(source: text, done: text)
    requires DecodedUpTo(source, |source|, done)
    ensures done == Decode(source)
  {
  }

  /** The buffer in the middle of the loop: decoded up to `dst`, as it was from there on. */
  ghost predicate Halfway(now: text, was: text, source: text, dst: nat, src: nat, done: text) {
    && |now| == |was| && dst <= src <= |source| < |was| && source == CString(was)
    && DecodedUpTo(source, src, done)
    && now[..dst] == done && now[dst..] == was[dst..]
  }

  lemma HalfwayStarts(was: text)
    requires NUL in was
    ensures Halfway(was, was, CString(was), 0, 0, [])
  {
    DecodeStarts(CString(was));
  }

  lemma HalfwayAdvances(now: text, was: text, source: text, dst: nat, src: nat, done: text, n: nat, b: byte)
    requires Halfway(now, was, source, dst, src, done) && src < |source| && (n, b) == Turn(source[src..])
    ensures Halfway(now[dst := b], was, source, dst + 1, src + n, done + [b])
  {
    TurnAdvances(source, src, done, n, b);
    assert now[dst := b][..dst + 1] == now[..dst] + [b];
    assert now[dst := b][dst + 1..] == now[dst..][1..] && was[dst + 1..] == was[dst..][1..];
  }

  /** What is still to be read is as it was. */
  lemma HalfwayReads(now: text, was: text, source: text, dst: nat, src: nat, done: text)
    requires Halfway(now, was, source, dst, src, done)
    ensures forall k :: src <= k < |source| ==> now[k] == source[k]
    ensures now[|source|] == NUL && NUL !in source
    ensures now[src] == NUL <==> src == |source|
  {
    assert forall k :: src <= k < |source| ==> source[k] in source;
    assert forall k :: dst <= k < |was| ==> now[k] == now[dst..][k - dst] == was[dst..][k - dst] == was[k];
  }

  /** The body of the decoder's loop: the byte to write, and how far to read on. */
  method TakeTurn(s: array<byte>, src: nat, ghost source: text) returns (n: nat, b: byte)
    requires src < |source| < s.Length && NUL !in source && s[|source|] == NUL
    requires forall k :: src <= k < |source| ==> s[k] == source[k]
    ensures (n, b) == Turn(source[src..])
  {
    assert forall k :: src <= k < |source| ==> source[k] in source;
    if s[src] == PLUS {
      return 1, SPACE;
    }
    if s[src] == PERCENT && s[src + 1] != NUL {
      if s[src + 2] != NUL {
        return 3, HexPair(s[src + 1], s[src + 2]);
      }
    }
    return 1, s[src];
  }

  /** One turn of the decoder's loop. */
  method PutTurn(s: array<byte>, dst: nat, src: nat, ghost was: text, ghost source: text, ghost done: text)
    returns (next: nat, ghost more: text)
    requires Halfway(s[..], was, source, dst, src, done) && src < |source|
    modifies s
    ensures src < next && Halfway(s[..], was, source, dst + 1, next, more)
  {
    ghost var now := s[..];
    HalfwayReads(now, was, source, dst, src, done);
    var n, b := TakeTurn(s, src, source);
    HalfwayAdvances(now, was, source, dst, src, done, n, b);
    s[dst] := b;
    assert s[..] == now[dst := b];
    next, more := src + n, done + [b];
  }

  /**
   * `url_decode`: the string in `s` is decoded in place. The write index never passes the read
   * index, nothing after the new NUL is disturbed, and the decoded length is returned.
   */
  method UrlDecode(s: array<byte>) returns (length: nat)
    requires NUL in s[..]
    modifies s
    ensures length < s.Length && s[..length] == Decode(CString(old(s[..]))) && s[length] == NUL
    ensures s[length + 1..] == old(s[length + 1..])
  {
    ghost var was := s[..];
    ghost var source, done: text := CString(was), [];
    var dst, src := 0, 0;
    HalfwayStarts(was);
    HalfwayReads(s[..], was, source, dst, src, done);
    while s[src] != NUL
      invariant Halfway(s[..], was, source, dst, src, done)
      decreases |source| - src
    {
      HalfwayReads(s[..], was, source, dst, src, done);
      assert s[..][src] == s[src];
      src, done := PutTurn(s, dst, src, was, source, done);
      dst := dst + 1;
    }
    EndReached(s[..], was, source, dst, src, done);
    ghost var last := s[..];
    s[dst] := NUL;
    length := dst;
    assert s[..] == last[dst := NUL];
    assert s[dst + 1..] == last[dst..][1..] && was[dst + 1..] == was[dst..][1..];
  }

  lemma EndReached(now: text, was: text, source: text, dst: nat, src: nat, done: text)
    requires Halfway(now, was, source, dst, src, done) && now[src] == NUL
    ensures done == Decode(source) && dst < |now|
  {
    HalfwayReads(now, was, source, dst, src, done);
    DecodeEnds(source, done);
  }

  // ---- the encoder ------------------------------------------------------------------

  /** Letters, digits and `_.-~` stand for themselves. */
  predicate Unreserved(c: byte) {
    65 <= c <= 90 || 97 <= c <= 122 || 48 <= c <= 57 || c == 95 || c == 46 || c == 45 || c == 126
  }

  function HexCode(d: nat): byte
    requires d < 16
  {
    if d < 10 then 48 + d else 55 + d
  }

  function EncodeByte(c: byte): (r: text)
    ensures |r| == 1 || |r| == 3
    ensures forall i :: 0 <= i < |r| ==> r[i] != NUL && r[i] != AMPERSAND && r[i] != EQUALS
  {
    if Unreserved(c) then [c]
    else if c == SPACE then [PLUS]
    else [PERCENT, HexCode(c / 16), HexCode(c % 16)]
  }

  /** `urllib.parse.quote_plus` on UTF-8 bytes. */
  function Encode(s: text): (r: text)
    ensures NUL !in r && AMPERSAND !in r && EQUALS !in r
  {
    if s == [] then [] else EncodeByte(s[0]) + Encode(s[1..])
  }

  lemma {:induction false} DecodeEncodedByte(c: byte, rest: text)
    ensures Decode(EncodeByte(c) + rest) == [c] + Decode(rest)
  {
    var s := EncodeByte(c) + rest;
    if |EncodeByte(c)| == 3 {
      assert s[3..] == rest;
      assert HexPair(s[1], s[2]) == c by {
        assert HexDigit(HexCode(c / 16)) == Some(c / 16) && HexDigit(HexCode(c % 16)) == Some(c % 16);
      }
    } else {
      assert s[1..] == rest;
    }
  }

  /** Decoding undoes encoding, byte for byte. */
  lemma {:induction false} EncodeRoundTrips(s: text)
    ensures Decode(Encode(s)) == s
  {
    if s != [] {
      DecodeEncodedByte(s[0], Encode(s[1..]));
      EncodeRoundTrips(s[1..]);
      assert [s[0]] + s[1..] == s;
    }
  }

  // ---- what other texts decode to ---------------------------------------------------

  /** `c` is a hexadecimal digit worth `d`; the letters count in either case. */
  predicate Worth(c: byte, d: nat) {
    d < 16 && if d < 10 then c == 48 + d else c == 65 + (d - 10) || c == 97 + (d - 10)
  }

  predicate NoDigit(c: byte) { c < 48 || 57 < c < 65 || 70 < c < 97 || 102 < c }

  lemma EscapeStarts(a: byte, b: byte, rest: text)
    ensures Decode([PERCENT, a, b] + rest) == [HexPair(a, b)] + Decode(rest)
  {
    assert ([PERCENT, a, b] + rest)[3..] == rest;
  }

  /** Two digits, of either case, after a percent sign are the byte they spell. */
  lemma EscapeIsRead(a: byte, b: byte, hi: nat, lo: nat, rest: text)
    requires Worth(a, hi) && Worth(b, lo)
    ensures Decode([PERCENT, a, b] + rest) == [hi * 16 + lo] + Decode(rest)
  {
    EscapeStarts(a, b, rest);
  }

  /** If the first is none, both are swallowed; if only the second is none, the first counts alone. */
  lemma OddEscapeIsRead(a: byte, b: byte, hi: nat, rest: text)
    requires NoDigit(b)
    ensures NoDigit(a) ==> Decode([PERCENT, a, b] + rest) == [0] + Decode(rest)
    ensures Worth(a, hi) ==> Decode([PERCENT, a, b] + rest) == [hi] + Decode(rest)
  {
    EscapeStarts(a, b, rest);
  }

  /** White space and signs in front of one digit are taken by the number reader. */
  lemma SignedEscapeIsRead(a: byte, b: byte, lo: nat, rest: text)
    requires NoDigit(a) && Worth(b, lo)
    ensures Decode([PERCENT, a, b] + rest) ==
            [if a == 32 || 9 <= a <= 13 || a == 43 then lo
             else if a == 45 && lo > 0 then 256 - lo else 0] + Decode(rest)
  {
    EscapeStarts(a, b, rest);
  }

  /** A plus is a space; any other byte that starts no whole escape stands for itself. */
  lemma PlainIsRead(c: byte, rest: text)
    requires c == PERCENT ==> |rest| < 2
    ensures Decode([c] + rest) == [if c == PLUS then SPACE else c] + Decode(rest)
  {
    assert ([c] + rest)[1..] == rest;
  }

  // ---- cutting an encoded text short ------------------------------------------------

  function Cut(s: text, n: nat): (r: text)
    ensures |r| <= n && |r| <= |s|
  {
    if |s| <= n then s else s[..n]
  }

  predicate EndsInPercent(s: text) {
    || (|s| >= 1 && s[|s| - 1] == PERCENT)
    || (|s| >= 2 && s[|s| - 2] == PERCENT && s[|s| - 1] == 50)
  }

  /** The encoded text fits, or only the tail of a last "%" or "%2" is cut, which decodes to itself. */
  predicate Fits(s: text, n: nat) {
    |Encode(s)| <= n || (|Encode(s)| == n + 2 && EndsInPercent(s))
  }

  lemma {:induction false} CutEncoded(c: byte, rest: text, n: nat)
    requires n >= |EncodeByte(c)|
    ensures Cut(EncodeByte(c) + rest, n) == EncodeByte(c) + Cut(rest, n - |EncodeByte(c)|)
  {
  }

  /** A prefix of one encoded byte decodes to itself. */
  lemma {:induction false} DecodeOfFragment(c: byte, rest: text, n: nat)
    requires n < |EncodeByte(c)|
    ensures Decode(Cut(EncodeByte(c) + rest, n)) == EncodeByte(c)[..n]
  {
    var f := Cut(EncodeByte(c) + rest, n);
    assert f == EncodeByte(c)[..n];
    if n == 2 {
      assert f[1..] == [f[1]];
      assert Decode([f[1]]) == [f[1]] + Decode([]);
    }
  }

  lemma EncodeNeverEmpty(s: text)
    ensures |Encode(s)| >= |s|
  {
  }

  lemma EncodeLength(s: text)
    requires s != []
    ensures |Encode(s)| == |EncodeByte(s[0])| + |Encode(s[1..])|
  {
  }

  lemma EncodeOfTwo()
    ensures |Encode([50])| == 1
  {
    assert Encode([50]) == [50] + Encode([]);
  }

  /** Whether the text fits does not depend on a first byte that is not cut. */
  lemma FitsTail(s: text, n: nat, left: nat)
    requires s != [] && n == |EncodeByte(s[0])| + left
    ensures Fits(s, n) <==> Fits(s[1..], left)
  {
    var tail := s[1..];
    EncodeLength(s);
    EncodeNeverEmpty(tail);
    EncodeOfTwo();
    if |tail| == 1 && tail[0] == 50 {
      assert tail == [50];
    } else if tail != [] {
      assert s[|s| - 1] == tail[|tail| - 1];
      assert |tail| > 1 ==> s[|s| - 2] == tail[|tail| - 2];
    }
  }

  lemma SameTail(c: byte, x: text, tail: text)
    ensures [c] + x == [c] + tail <==> x == tail
  {
    assert ([c] + x)[1..] == x && ([c] + tail)[1..] == tail;
  }

  /** Truncating the encoded text before decoding is harmless exactly when it fits. */
  lemma {:induction false} TruncationHarmlessExactly(s: text, n: nat)
    ensures Decode(Cut(Encode(s), n)) == s <==> Fits(s, n)
  {
    if s != [] {
      var c, tail, e := s[0], s[1..], EncodeByte(s[0]);
      if n >= |e| {
        var left := n - |e|;
        CutEncoded(c, Encode(tail), n);
        DecodeEncodedByte(c, Cut(Encode(tail), left));
        TruncationHarmlessExactly(tail, left);
        FitsTail(s, n, left);
        SameTail(c, Decode(Cut(Encode(tail), left)), tail);
        assert s == [c] + tail;
      } else {
        DecodeOfFragment(c, Encode(tail), n);
        FragmentEquals(s, n);
      }
    }
  }

  /** A text whose first encoded byte is cut equals the fragment only for "%" and "%2". */
  lemma {:induction false} FragmentEquals(s: text, n: nat)
    requires s != [] && n < |EncodeByte(s[0])|
    ensures EncodeByte(s[0])[..n] == s <==> Fits(s, n)
  {
    var e, tail := EncodeByte(s[0]), s[1..];
    EncodeNeverEmpty(tail);
    assert |Encode(s)| == |e| + |Encode(tail)|;
    if |tail| == 1 {
      assert Encode(tail) == EncodeByte(tail[0]) + Encode([]);
    }
    if e[..n] == s {
      assert s[0] == e[0];
      if n == 2 {
        assert s[1] == e[1];
      }
    }
  }

  // ---- the field scan ---------------------------------------------------------------

  function IndexOf(s: text, c: byte): (r: nat)
    ensures r <= |s| && (r < |s| ==> s[r] == c)
    ensures forall i :: 0 <= i < r ==> s[i] != c
  {
    if s == [] || s[0] == c then 0 else 1 + IndexOf(s[1..], c)
  }

  /** A field's name, if it has one: the bytes before its first '='. */
  function NameOf(field: text): Option<text> {
    var e := IndexOf(field, EQUALS);
    if e == |field| then None else Some(field[..e])
  }

  /** The value of the first '&'-separated field of the body that has this name. */
  function Lookup(body: text, key: text): Option<text>
    decreases |body|
  {
    var e := IndexOf(body, AMPERSAND);
    var field := body[..e];
    if NameOf(field) == Some(key) then Some(field[IndexOf(field, EQUALS) + 1..])
    else if e < |body| then Lookup(body[e + 1..], key)
    else None
  }

  predicate ValidKey(key: text) { key != [] && NUL !in key && AMPERSAND !in key && EQUALS !in key }

  /** `key=` stands at `p`, at the start of the body or right after '&'. */
  predicate KeyAt(body: text, key: text, p: nat) {
    && p + |key| < |body|
    && (p == 0 || body[p - 1] == AMPERSAND)
    && body[p..p + |key|] == key
    && body[p + |key|] == EQUALS
  }

  /** No match starts before `p`. */
  ghost predicate NoKeyBefore(body: text, key: text, p: nat) {
    forall q :: 0 <= q < p ==> !KeyAt(body, key, q)
  }

  function ValueAt(body: text, from: nat): text
    requires from <= |body|
  {
    body[from..from + IndexOf(body[from..], AMPERSAND)]
  }

  lemma {:induction false} NameIsKey(field: text, key: text)
    requires ValidKey(key) && AMPERSAND !in field
    ensures NameOf(field) == Some(key) <==> KeyAt(field, key, 0)
  {
    assert field[0..IndexOf(field, EQUALS)] == field[..IndexOf(field, EQUALS)];
    if KeyAt(field, key, 0) {
      assert forall i :: 0 <= i < |key| ==> field[i] == field[0..|key|][i] == key[i] && key[i] in key;
      IndexIs(field, EQUALS, |key|);
    }
  }

  /** A match at the start is a match of the first field, and no match starts later inside that field. */
  lemma {:induction false} KeyAtStart(body: text, key: text, e: nat)
    requires ValidKey(key) && e == IndexOf(body, AMPERSAND)
    ensures KeyAt(body, key, 0) <==> KeyAt(body[..e], key, 0)
    ensures forall p :: 0 < p <= e ==> !KeyAt(body, key, p)
  {
    if KeyAt(body, key, 0) {
      KeyBeforeEnd(body, key, e);
      assert body[..e][0..|key|] == body[0..|key|];
    }
    if KeyAt(body[..e], key, 0) {
      assert body[..e][0..|key|] == body[0..|key|];
    }
  }

  lemma {:induction false} KeyBeforeEnd(body: text, key: text, e: nat)
    requires ValidKey(key) && e == IndexOf(body, AMPERSAND) && KeyAt(body, key, 0)
    ensures |key| < e
  {
    assert forall i :: 0 <= i < |key| ==> body[i] == body[0..|key|][i] == key[i];
    assert forall i :: 0 <= i < |key| ==> key[i] in key;
  }

  /** A match after the first field is a match of the rest. */
  lemma {:induction false} KeyAtShifts(body: text, key: text, e: nat, p: nat)
    requires e < |body| && body[e] == AMPERSAND && e < p
    ensures KeyAt(body, key, p) <==> KeyAt(body[e + 1..], key, p - (e + 1))
  {
    if p + |key| < |body| {
      assert body[e + 1..][p - (e + 1)..p - (e + 1) + |key|] == body[p..p + |key|];
    }
  }

  /** Looking a key up means looking for a match at the start, then at the other fields. */
  lemma {:induction false} LookupSplits(body: text, key: text)
    requires ValidKey(key)
    ensures var e := IndexOf(body, AMPERSAND);
            Lookup(body, key) ==
              if KeyAt(body, key, 0) then Some(body[..e][|key| + 1..])
              else if e < |body| then Lookup(body[e + 1..], key)
              else None
  {
    var e := IndexOf(body, AMPERSAND);
    NameIsKey(body[..e], key);
    KeyAtStart(body, key, e);
  }

  lemma {:induction false} FirstFieldMatches(body: text, key: text, from: nat)
    requires ValidKey(key) && KeyAt(body, key, 0) && from == |key| + 1
    ensures Lookup(body, key) == Some(ValueAt(body, from))
  {
    var e := IndexOf(body, AMPERSAND);
    LookupSplits(body, key);
    KeyBeforeEnd(body, key, e);
    FieldValue(body, key, e);
  }

  lemma {:induction false} LaterFieldMatches(body: text, key: text, e: nat, at: nat, from: nat)
    requires ValidKey(key) && !KeyAt(body, key, 0)
    requires e == IndexOf(body, AMPERSAND) && e < from <= |body| && from == e + 1 + at
    requires Lookup(body[e + 1..], key) == Some(ValueAt(body[e + 1..], at))
    ensures Lookup(body, key) == Some(ValueAt(body, from))
  {
    LookupSplits(body, key);
    ValueShifts(body, e, at, from);
  }

  /** A match after the start lies after the first field. */
  lemma {:induction false} LaterMatch(body: text, key: text, p: nat) returns (e: nat, q: nat)
    requires ValidKey(key) && KeyAt(body, key, p) && 0 < p && NoKeyBefore(body, key, p)
    ensures e == IndexOf(body, AMPERSAND) && e < |body| && p == e + 1 + q && !KeyAt(body, key, 0)
    ensures KeyAt(body[e + 1..], key, q) && NoKeyBefore(body[e + 1..], key, q)
  {
    e := IndexOf(body, AMPERSAND);
    KeyAtStart(body, key, e);
    q := p - (e + 1);
    KeyAtShifts(body, key, e, p);
    RestHasNone(body, key, e, p);
  }

  /** The first match, if any, is the first field with that name. */
  lemma {:induction false} FirstMatchIsLookup(body: text, key: text, p: nat, from: nat)
    requires ValidKey(key) && KeyAt(body, key, p) && NoKeyBefore(body, key, p) && from == p + |key| + 1
    ensures Lookup(body, key) == Some(ValueAt(body, from))
    decreases |body|
  {
    if p == 0 {
      FirstFieldMatches(body, key, from);
    } else {
      var e, q := LaterMatch(body, key, p);
      var at := q + |key| + 1;
      FirstMatchIsLookup(body[e + 1..], key, q, at);
      LaterFieldMatches(body, key, e, at, from);
    }
  }

  lemma {:induction false} ValueShifts(body: text, e: nat, at: nat, from: nat)
    requires e < from <= |body| && from == e + 1 + at
    ensures ValueAt(body[e + 1..], at) == ValueAt(body, from)
  {
    assert body[e + 1..][at..] == body[from..];
  }

  lemma IndexIs(s: text, c: byte, k: nat)
    requires k <= |s| && (k < |s| ==> s[k] == c) && forall i :: 0 <= i < k ==> s[i] != c
    ensures IndexOf(s, c) == k
  {
  }

  lemma {:induction false} FieldValue(body: text, key: text, e: nat)
    requires e == IndexOf(body, AMPERSAND) && |key| + 1 <= e
    ensures ValueAt(body, |key| + 1) == body[..e][|key| + 1..]
  {
    IndexIs(body[|key| + 1..], AMPERSAND, e - (|key| + 1));
  }

  /** No match before `p` in the body means none before the same place in the rest. */
  lemma {:induction false} RestHasNone(body: text, key: text, e: nat, p: nat)
    requires e < |body| && body[e] == AMPERSAND && e < p
    requires NoKeyBefore(body, key, p)
    ensures NoKeyBefore(body[e + 1..], key, p - (e + 1))
  {
    var rest := body[e + 1..];
    forall i | 0 <= i < p - (e + 1) ensures !KeyAt(rest, key, i) {
      KeyAtShifts(body, key, e, e + 1 + i);
    }
  }

  lemma {:induction false} NoMatchNoField(body: text, key: text)
    requires ValidKey(key) && NoKeyBefore(body, key, |body|)
    ensures Lookup(body, key) == None
    decreases |body|
  {
    var e := IndexOf(body, AMPERSAND);
    LookupSplits(body, key);
    if e < |body| {
      RestHasNone(body, key, e, |body|);
      NoMatchNoField(body[e + 1..], key);
    }
  }

  predicate Occurs(body: text, key: text, p: nat) { p + |key| <= |body| && body[p..p + |key|] == key }

  /** `strstr` from `from` on. */
  function FindText(body: text, key: text, from: nat): (r: Option<nat>)
    requires from <= |body|
    ensures r.None? ==> forall q :: from <= q ==> !Occurs(body, key, q)
    ensures r.Some? ==> from <= r.value && Occurs(body, key, r.value)
    ensures r.Some? ==> forall q :: from <= q < r.value ==> !Occurs(body, key, q)
    decreases |body| - from
  {
    if Occurs(body, key, from) then Some(from)
    else if from == |body| then None
    else FindText(body, key, from + 1)
  }

  /** No match starts inside an occurrence of the key that is not itself a match. */
  lemma SkipMissesNothing(body: text, key: text, p: nat, q: nat)
    requires ValidKey(key) && Occurs(body, key, p) && p < q < p + |key|
    ensures !KeyAt(body, key, q)
  {
    assert body[q - 1] == body[p..p + |key|][q - 1 - p];
  }

  /** What `form_get` leaves in a buffer of `size` bytes, as a C string. */
  function FormValue(body: text, key: text, size: nat): Option<text>
    requires size > 0
  {
    var v := Lookup(body, key);
    if v.None? then None else Some(Buffered(v.value, size))
  }

  /** The C string that a value becomes when it is cut to a buffer and decoded there. */
  function Buffered(value: text, size: nat): text
    requires size > 0
  {
    CString(Decode(Cut(value, size - 1)))
  }

  /** The scan of `form_get`: from one occurrence of the key to the next, skipping a whole key length. */
  method ScanForKey(body: text, key: text) returns (found: Option<nat>)
    requires ValidKey(key)
    ensures found.Some? ==> KeyAt(body, key, found.value) && NoKeyBefore(body, key, found.value)
    ensures found.None? ==> NoKeyBefore(body, key, |body|)
  {
    var p := 0;
    while true
      invariant p <= |body| && NoKeyBefore(body, key, p)
      decreases |body| - p
    {
      var at := FindText(body, key, p);
      if at.None? {
        NoLaterMatch(body, key, p);
        return None;
      }
      NothingBefore(body, key, p, at.value);
      p := at.value;
      if p != 0 && body[p - 1] != AMPERSAND {
        NothingInside(body, key, p);
        p := p + |key|;
        continue;
      }
      if p + |key| == |body| || body[p + |key|] != EQUALS {
        NothingInside(body, key, p);
        p := p + |key|;
        continue;
      }
      return Some(p);
    }
  }

  /** `form_get` on a NUL-terminated body. */
  method FormGet(body: text, key: text, out: array<byte>) returns (found: bool)
    requires NUL !in body && ValidKey(key) && out.Length > 0
    modifies out
    ensures found <==> Lookup(body, key).Some?
    ensures found ==> Some(CString(out[..])) == FormValue(body, key, out.Length)
    ensures !found ==> out[..] == old(out[..])
  {
    var at := ScanForKey(body, key);
    if at.None? {
      NoMatchNoField(body, key);
      return false;
    }
    var from := at.value + |key| + 1;
    FirstMatchIsLookup(body, key, at.value, from);
    CopyValue(body, from, out);
    return true;
  }

  lemma {:induction false} NoLaterMatch(body: text, key: text, p: nat)
    requires p <= |body| && FindText(body, key, p).None?
    requires NoKeyBefore(body, key, p)
    ensures NoKeyBefore(body, key, |body|)
  {
    forall q | p <= q ensures !KeyAt(body, key, q) {
      assert !Occurs(body, key, q);
    }
  }

  lemma {:induction false} NothingBefore(body: text, key: text, p: nat, at: nat)
    requires p <= |body| && FindText(body, key, p) == Some(at)
    requires NoKeyBefore(body, key, p)
    ensures NoKeyBefore(body, key, at)
  {
    forall q | p <= q < at ensures !KeyAt(body, key, q) {
      assert !Occurs(body, key, q);
    }
  }

  lemma {:induction false} NothingInside(body: text, key: text, p: nat)
    requires ValidKey(key) && Occurs(body, key, p) && !KeyAt(body, key, p)
    requires NoKeyBefore(body, key, p)
    ensures NoKeyBefore(body, key, p + |key|)
  {
    forall q | p < q < p + |key| ensures !KeyAt(body, key, q) {
      SkipMissesNothing(body, key, p, q);
    }
  }

  /** Copy the value up to '&' or the end, at most what the buffer holds, and decode it in place. */
  method CopyValue(body: text, from: nat, out: array<byte>)
    requires NUL !in body && from <= |body| && out.Length > 0
    modifies out
    ensures CString(out[..]) == Buffered(ValueAt(body, from), out.Length)
  {
    var vlen := IndexOf(body[from..], AMPERSAND);
    if vlen >= out.Length {
      vlen := out.Length - 1;
    }
    ghost var cut := Cut(ValueAt(body, from), out.Length - 1);
    assert cut == body[from..from + vlen];
    forall i | 0 <= i < vlen {
      out[i] := body[from + i];
    }
    out[vlen] := NUL;
    assert out[..vlen] == cut;
    assert forall i :: 0 <= i < vlen ==> cut[i] == body[from + i] && body[from + i] in body;
    CStringUpTo(out[..], vlen);
    assert out[vlen] in out[..];
    var n := UrlDecode(out);
    SameCString(out[..], n, Decode(cut));
  }

  // ---- the connect handler ----------------------------------------------------------

  /** The credentials a form body stores; nothing when the SSID is missing or empty. */
  function Credentials(body: text): Option<(text, text)> {
    var ssid, password := FormValue(body, SSID, 33), FormValue(body, PASSWORD, 65);
    if ssid.None? || ssid.value == [] then None
    else Some((ssid.value, if password.Some? then password.value else []))
  }

  /** The SSID must be there and may not be empty; a missing password is stored as an empty one. */
  lemma MissingFields(body: text)
    ensures Lookup(body, SSID).None? ==> Credentials(body) == None
    ensures Lookup(body, SSID) == Some([]) ==> Credentials(body) == None
    ensures Lookup(body, PASSWORD).None? && Credentials(body).Some? ==> Credentials(body).value.1 == []
  {
  }

  /** `connect_post_handler` for a body that is not JSON; `received` is what one receive call brought. */
  method ConnectPost(received: text) returns (stored: Option<(text, text)>)
    requires |received| <= 255
    ensures stored == if received == [] then None else Credentials(CString(received))
  {
    if received == [] { return None; }
    var buf := CString(received);
    var ssidBuf := new byte[33](_ => NUL);
    var passBuf := new byte[65](_ => NUL);
    CStringUpTo(passBuf[..], 0);
    var hasSsid := FormGet(buf, SSID, ssidBuf);
    var hasPass := FormGet(buf, PASSWORD, passBuf);
    if !hasSsid { return None; }
    var ssid := CString(ssidBuf[..]);
    if ssid == [] { return None; }
    stored := Some((ssid, CString(passBuf[..])));
  }

  function Pair(key: text, value: text): text { key + [EQUALS] + value }

  /** The body the portal posts. */
  function Body(ssid: text, password: text): text {
    Pair(SSID, Encode(ssid)) + ([AMPERSAND] + Pair(PASSWORD, Encode(password)))
  }

  lemma {:induction false} PairIsMatch(key: text, value: text, rest: text)
    requires ValidKey(key) && AMPERSAND !in value && (rest == [] || rest[0] == AMPERSAND)
    ensures KeyAt(Pair(key, value) + rest, key, 0)
    ensures IndexOf(Pair(key, value) + rest, AMPERSAND) == |Pair(key, value)|
    ensures Lookup(Pair(key, value) + rest, key) == Some(value)
  {
    var body, pair := Pair(key, value) + rest, Pair(key, value);
    assert body[0..|key|] == key;
    assert AMPERSAND !in pair;
    IndexIs(body, AMPERSAND, |pair|);
    assert body[..|pair|] == pair && pair[|key| + 1..] == value;
    LookupSplits(body, key);
  }

  /** A second pair is found behind a first of another name. */
  lemma {:induction false} SecondPairIsFound(first: text, second: text, key: text)
    requires ValidKey(key) && first != [] && first[0] != key[0] && AMPERSAND !in first
    ensures Lookup(first + ([AMPERSAND] + second), key) == Lookup(second, key)
  {
    var body := first + ([AMPERSAND] + second);
    IndexIs(body, AMPERSAND, |first|);
    assert body[|first| + 1..] == second;
    LookupSplits(body, key);
    assert |key| <= |body| ==> body[0..|key|][0] == first[0];
  }

  lemma {:induction false} NoNulAppears(s: text, n: nat)
    requires NUL !in s
    ensures NUL !in Decode(Cut(Encode(s), n))
  {
    if s != [] {
      var e, rest := EncodeByte(s[0]), Encode(s[1..]);
      if n >= |e| {
        CutEncoded(s[0], rest, n);
        DecodeEncodedByte(s[0], Cut(rest, n - |e|));
        NoNulAppears(s[1..], n - |e|);
      } else {
        DecodeOfFragment(s[0], rest, n);
      }
    }
  }

  lemma StoredExactly(s: text, n: nat)
    ensures Buffered(Encode(s), n + 1) == s <==> NUL !in s && Fits(s, n)
  {
    TruncationHarmlessExactly(s, n);
    if NUL !in s {
      NoNulAppears(s, n);
    }
  }

  // ---- the body as it is received ---------------------------------------------------

  /** The most one receive call brings. */
  const RECEIVED_MAX: nat := 255

  function Received(body: text): text { Cut(body, RECEIVED_MAX) }

  lemma CutOfTwo(a: text, b: text, n: nat)
    ensures Cut(a + b, n) == if |a| <= n then a + Cut(b, n - |a|) else Cut(a, n)
  {
  }

  lemma CutTwice(s: text, m: nat, n: nat)
    requires n <= m
    ensures Cut(Cut(s, m), n) == Cut(s, n)
  {
  }

  lemma CutPair(key: text, value: text, n: nat, room: nat)
    requires n == |key| + 1 + room
    ensures Cut(Pair(key, value), n) == Pair(key, Cut(value, room))
  {
    CutOfTwo(key + [EQUALS], value, n);
  }

  /** A longer buffer than the value needs does not matter. */
  lemma BufferedCut(value: text, room: nat, n: nat)
    requires n <= room
    ensures Buffered(Cut(value, room), n + 1) == Buffered(value, n + 1)
  {
    CutTwice(value, room, n);
  }

  lemma NoNulInPair(key: text, value: text)
    requires NUL !in key && NUL !in value
    ensures NUL !in Pair(key, value)
  {
  }

  lemma NoNulInBody(ssid: text, password: text)
    ensures NUL !in Received(Body(ssid, password))
  {
    NoNulInPair(SSID, Encode(ssid));
    NoNulInPair(PASSWORD, Encode(password));
    assert NUL !in Body(ssid, password);
  }

  /** The first pair of a body that is cut: its value is found, cut short if it must be. */
  lemma {:induction false} FirstPairIsReceived(key: text, value: text, rest: text, n: nat, room: nat)
    requires ValidKey(key) && AMPERSAND !in value && (rest == [] || rest[0] == AMPERSAND) && n == |key| + 1 + room
    ensures Lookup(Cut(Pair(key, value) + rest, n), key) == Some(Cut(value, room))
  {
    var pair := Pair(key, value);
    CutOfTwo(pair, rest, n);
    CutPair(key, value, n, room);
    if |pair| <= n {
      PairIsMatch(key, value, Cut(rest, n - |pair|));
    } else {
      PairIsMatch(key, Cut(value, room), []);
      assert Pair(key, Cut(value, room)) + [] == Pair(key, Cut(value, room));
    }
  }

  lemma SsidIsReceived(ssid: text, password: text)
    ensures Lookup(Received(Body(ssid, password)), SSID) == Some(Cut(Encode(ssid), 250))
  {
    FirstPairIsReceived(SSID, Encode(ssid), [AMPERSAND] + Pair(PASSWORD, Encode(password)), RECEIVED_MAX, 250);
  }

  lemma CutBehind(first: text, second: text, n: nat, room: nat)
    requires n == |first| + 1 + room
    ensures Cut(first + ([AMPERSAND] + second), n) == first + ([AMPERSAND] + Cut(second, room))
  {
    CutOfTwo(first, [AMPERSAND] + second, n);
    CutOfTwo([AMPERSAND], second, n - |first|);
  }

  /** The second pair of a body that is cut behind its name. */
  lemma {:induction false} SecondPairIsReceived(first: text, key: text, value: text, n: nat, room: nat, rest: nat)
    requires ValidKey(key) && AMPERSAND !in value && rest == |key| + 1 + room && n == |first| + 1 + rest
    requires first != [] && first[0] != key[0] && AMPERSAND !in first
    ensures Lookup(Cut(first + ([AMPERSAND] + Pair(key, value)), n), key) == Some(Cut(value, room))
  {
    CutBehind(first, Pair(key, value), n, rest);
    SecondPairIsFound(first, Cut(Pair(key, value), rest), key);
    FirstPairIsReceived(key, value, [], rest, room);
    assert Pair(key, value) + [] == Pair(key, value);
  }

  lemma PasswordIsReceived(ssid: text, password: text, room: nat)
    requires |Encode(ssid)| <= 34 && room == 240 - |Encode(ssid)|
    ensures Lookup(Received(Body(ssid, password)), PASSWORD) == Some(Cut(Encode(password), room))
  {
    SecondPairIsReceived(Pair(SSID, Encode(ssid)), PASSWORD, Encode(password), RECEIVED_MAX, room, 9 + room);
  }

  /**
   * What the portal posts, the firmware stores, exactly when the SSID is not empty, neither value holds a
   * NUL, and both fit their buffers, however long the body; in particular for encoded forms of at most 32
   * and 64 bytes, whose body is received whole.
   */
  lemma CredentialsRoundTrip(ssid: text, password: text)
    ensures Credentials(CString(Received(Body(ssid, password)))) == Some((ssid, password)) <==>
              && ssid != [] && NUL !in ssid && NUL !in password
              && Fits(ssid, 32) && Fits(password, 64)
    ensures |Encode(ssid)| <= 32 && |Encode(password)| <= 64 ==>
              Received(Body(ssid, password)) == Body(ssid, password) && Fits(ssid, 32) && Fits(password, 64)
  {
    NoNulInBody(ssid, password);
    SsidIsReceived(ssid, password);
    BufferedCut(Encode(ssid), 250, 32);
    StoredExactly(ssid, 32);
    if Fits(ssid, 32) {
      var room := 240 - |Encode(ssid)|;
      PasswordIsReceived(ssid, password, room);
      BufferedCut(Encode(password), room, 64);
      StoredExactly(password, 64);
    }
  }
}
