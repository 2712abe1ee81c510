/**
 * The chunked serial line reader of pi/portal.py. Text is ASCII, so that decoding and encoding
 * change nothing.
 */
module LineReader {
  import opened Common

  const NEWLINE: char := '\n'

  predicate IsSpace(c: char) { c == ' ' || '\t' <= c <= '\r' || '\U{1C}' <= c <= '\U{1F}' }

  function StripLeft(s: string): string {
    if s != "" && IsSpace(s[0]) then StripLeft(s[1..]) else s
  }

  function StripRight(s: string): string {
    if s != "" && IsSpace(s[|s| - 1]) then StripRight(s[..|s| - 1]) else s
  }

  function Strip(s: string): string { StripRight(StripLeft(s)) }

  predicate AllSpace(s: string) { forall i :: 0 <= i < |s| ==> IsSpace(s[i]) }

  /** No blank at either end. */
  predicate Trim(s: string) { s == "" || (!IsSpace(s[0]) && !IsSpace(s[|s| - 1])) }

  lemma {:induction false} LeftPart(s: string) returns (blank: string)
    ensures s == blank + StripLeft(s) && AllSpace(blank)
    ensures StripLeft(s) == "" || !IsSpace(StripLeft(s)[0])
  {
    blank := "";
    if s != "" && IsSpace(s[0]) {
      blank := LeftPart(s[1..]);
      blank := [s[0]] + blank;
    }
  }

  lemma {:induction false} RightPart(s: string) returns (blank: string)
    ensures s == StripRight(s) + blank && AllSpace(blank)
    ensures StripRight(s) == "" || !IsSpace(StripRight(s)[|StripRight(s)| - 1])
  {
    blank := "";
    if s != "" && IsSpace(s[|s| - 1]) {
      blank := RightPart(s[..|s| - 1]);
      blank := blank + [s[|s| - 1]];
    }
  }

  /** A text is a blank, its stripped form and a blank again, and the stripped form has no blank at either end. */
  lemma {:induction false} StripTrims(s: string) returns (before: string, behind: string)
    ensures s == before + Strip(s) + behind && AllSpace(before) && AllSpace(behind) && Trim(Strip(s))
  {
    before := LeftPart(s);
    behind := RightPart(StripLeft(s));
    assert Strip(s) != "" ==> Strip(s)[0] == StripLeft(s)[0];
  }

  predicate StandsAt(s: string, p: string, i: nat) { i + |p| <= |s| && s[i..i + |p|] == p }

  predicate Contains(s: string, p: string) { exists i: nat :: i <= |s| && StandsAt(s, p, i) }

  /** A pattern is contained exactly where the text is something, the pattern, and something more. */
  lemma ContainsExactly(s: string, p: string)
    ensures Contains(s, p) <==> exists a: string, b: string :: s == a + p + b
  {
    if Contains(s, p) {
      var i: nat :| i <= |s| && StandsAt(s, p, i);
      assert s == s[..i] + p + s[i + |p|..];
    }
    if a: string, b: string :| s == a + p + b {
      assert StandsAt(s, p, |a|);
    }
  }

  /** An absent or empty pattern is never looked for. */
  predicate Hit(pattern: Option<string>, line: string) {
    pattern.Some? && pattern.value != "" && Contains(line, pattern.value)
  }

  /** `split("\n")`: at least one piece. */
  function Split(s: string): (r: seq<string>)
    ensures r != []
  {
    if s == "" then [""]
    else
      var rest := Split(s[1..]);
      if s[0] == NEWLINE then [""] + rest else Glue(s[0], rest)
  }

  /** Put a character in front of the first piece. */
  function Glue(c: char, pieces: seq<string>): (r: seq<string>)
    requires pieces != []
    ensures |r| == |pieces|
  {
    [[c] + pieces[0]] + pieces[1..]
  }

  /** The pieces with a newline between each two. */
  function Lines(pieces: seq<string>): string
    requires pieces != []
  {
    if |pieces| == 1 then pieces[0] else pieces[0] + [NEWLINE] + Lines(pieces[1..])
  }

  /** Splitting is exact: no piece holds a newline, and with newlines between them they are the text again. */
  lemma {:induction false} SplitIsExact(s: string)
    ensures Lines(Split(s)) == s
    ensures forall i :: 0 <= i < |Split(s)| ==> NEWLINE !in Split(s)[i]
  {
    if s != "" {
      var rest := Split(s[1..]);
      SplitIsExact(s[1..]);
      assert s == [s[0]] + s[1..];
      if s[0] == NEWLINE {
        assert ([""] + rest)[1..] == rest;
      } else {
        assert Glue(s[0], rest)[1..] == rest[1..];
      }
    }
  }

  function Concat(chunks: seq<string>): string {
    if chunks == [] then "" else chunks[0] + Concat(chunks[1..])
  }

  /** What a reader reports: the lines, and the one that matched. */
  datatype Report = Report(lines: seq<string>, matched: Option<string>)

  /** Walk over raw lines, keeping the non-blank ones stripped, until one matches. */
  function Collect(raw: seq<string>, pattern: Option<string>): Report {
    if raw == [] then Report([], None)
    else
      var line := Strip(raw[0]);
      if line == "" then Collect(raw[1..], pattern)
      else if Hit(pattern, line) then Report([line], Some(line))
      else After([line], Collect(raw[1..], pattern))
  }

  function After(lines: seq<string>, r: Report): Report { Report(lines + r.lines, r.matched) }

  // ---- the reference: a stream's lines up to the first match ------------------------

  function NonBlank(raw: seq<string>): seq<string> {
    if raw == [] then []
    else if Strip(raw[0]) == "" then NonBlank(raw[1..])
    else [Strip(raw[0])] + NonBlank(raw[1..])
  }

  /** Line by line: a piece gives its stripped form, a blank one nothing, and the order is kept. */
  lemma {:induction false} NonBlankByPiece(raw: seq<string>, piece: string)
    ensures NonBlank(raw + [piece]) == NonBlank(raw) + (if AllSpace(piece) then [] else [Strip(piece)])
  {
    if raw == [] {
      assert raw + [piece] == [piece];
      BlankIsSpace(piece);
    } else {
      assert (raw + [piece])[1..] == raw[1..] + [piece];
      NonBlankByPiece(raw[1..], piece);
    }
  }

  lemma {:induction false} BlankIsSpace(s: string)
    ensures Strip(s) == "" <==> AllSpace(s)
  {
    var before, behind := StripTrims(s);
    if Strip(s) != "" {
      assert s[|before|] == Strip(s)[0];
    }
  }

  /** The place of the first matching line, or the number of lines. */
  function FirstHit(lines: seq<string>, pattern: Option<string>): (k: nat)
    ensures k <= |lines| && (k < |lines| ==> Hit(pattern, lines[k]))
    ensures forall i :: 0 <= i < k ==> !Hit(pattern, lines[i])
  {
    if lines == [] || Hit(pattern, lines[0]) then 0 else 1 + FirstHit(lines[1..], pattern)
  }

  /** Lines up to and including the first that matches. */
  function UpToHit(lines: seq<string>, pattern: Option<string>): Report {
    var k := FirstHit(lines, pattern);
    if k < |lines| then Report(lines[..k + 1], Some(lines[k])) else Report(lines, None)
  }

  /** The non-blank stripped lines of a stream, up to and including the first that matches. */
  function ReportOf(stream: string, pattern: Option<string>): Report { UpToHit(NonBlank(Split(stream)), pattern) }

  lemma UpToHitFirst(line: string, rest: seq<string>, pattern: Option<string>)
    ensures UpToHit([line] + rest, pattern) ==
            if Hit(pattern, line) then Report([line], Some(line)) else After([line], UpToHit(rest, pattern))
  {
    assert ([line] + rest)[1..] == rest;
    var k := FirstHit(rest, pattern);
    if !Hit(pattern, line) && k < |rest| {
      assert ([line] + rest)[..k + 2] == [line] + rest[..k + 1];
    }
  }

  lemma {:induction false} CollectIsReference(raw: seq<string>, pattern: Option<string>)
    ensures Collect(raw, pattern) == UpToHit(NonBlank(raw), pattern)
  {
    if raw != [] {
      CollectIsReference(raw[1..], pattern);
      if Strip(raw[0]) != "" {
        UpToHitFirst(Strip(raw[0]), NonBlank(raw[1..]), pattern);
      }
    }
  }

  lemma HitsExactly(lines: seq<string>, pattern: Option<string>)
    ensures var r := UpToHit(lines, pattern);
            && (r.matched.Some? <==> exists i :: 0 <= i < |lines| && Hit(pattern, lines[i]))
            && r.lines <= lines
            && (r.matched.None? ==> r.lines == lines)
            && (r.matched.Some? ==> r.lines != [] && Last(r.lines) == r.matched.value && Hit(pattern, r.matched.value))
            && forall i :: 0 <= i < |r.lines| - 1 ==> !Hit(pattern, r.lines[i])
  {
    var k := FirstHit(lines, pattern);
    if k < |lines| {
      assert lines[..k + 1][k] == lines[k];
    }
  }

  /** A match is reported exactly when some line of the stream matches, and it is the first such line. */
  lemma MatchReportedExactly(stream: string, pattern: Option<string>)
    ensures var lines := NonBlank(Split(stream));
            var r := ReportOf(stream, pattern);
            && (r.matched.Some? <==> exists i :: 0 <= i < |lines| && Hit(pattern, lines[i]))
            && r.lines <= lines
            && (r.matched.None? ==> r.lines == lines)
            && (r.matched.Some? ==> r.lines != [] && Last(r.lines) == r.matched.value && Hit(pattern, r.matched.value))
            && forall i :: 0 <= i < |r.lines| - 1 ==> !Hit(pattern, r.lines[i])
  {
    HitsExactly(NonBlank(Split(stream)), pattern);
  }

  // ---- cutting the stream -----------------------------------------------------------

  function Last(raw: seq<string>): string
    requires raw != []
  {
    raw[|raw| - 1]
  }

  function Init(raw: seq<string>): seq<string>
    requires raw != []
  {
    raw[..|raw| - 1]
  }

  lemma GlueContinues(c: char, pieces: seq<string>, more: seq<string>)
    requires |pieces| > 1
    ensures Glue(c, Init(pieces) + more) == Init(Glue(c, pieces)) + more
    ensures Last(Glue(c, pieces)) == Last(pieces)
  {
  }

  /** The pieces of a longer text: all but the last stay, and the last one is continued. */
  lemma {:induction false} SplitContinues(a: string, b: string)
    ensures Split(a + b) == Init(Split(a)) + Split(Last(Split(a)) + b)
  {
    if a == "" {
      assert a + b == b;
    } else {
      assert (a + b)[1..] == a[1..] + b;
      SplitContinues(a[1..], b);
      var rest := Split(a[1..]);
      var more := Split(Last(rest) + b);
      if a[0] == NEWLINE {
        assert Init([""] + rest) == [""] + Init(rest);
        ConcatAssociates([""], Init(rest), more);
      } else if |rest| > 1 {
        GlueContinues(a[0], rest, more);
      } else {
        SplitOnePiece(a[0], rest[0], b);
        assert Init(rest) + more == more;
        assert Init(Split(a)) == [];
      }
    }
  }

  lemma {:induction false} SplitOnePiece(c: char, piece: string, b: string)
    requires c != NEWLINE
    ensures Glue(c, [piece]) == [[c] + piece]
    ensures Split(([c] + piece) + b) == Glue(c, Split(piece + b))
  {
    assert (([c] + piece) + b)[1..] == piece + b;
  }

  /** Lines already walked over without a match come first; after a match nothing more is looked at. */
  lemma {:induction false} CollectAppends(a: seq<string>, b: seq<string>, pattern: Option<string>)
    ensures Collect(a + b, pattern) ==
            if Collect(a, pattern).matched.Some? then Collect(a, pattern)
            else After(Collect(a, pattern).lines, Collect(b, pattern))
  {
    if a == [] {
      assert a + b == b;
      assert After([], Collect(b, pattern)) == Collect(b, pattern);
    } else {
      assert (a + b)[1..] == a[1..] + b;
      CollectAppends(a[1..], b, pattern);
      var line, more := Strip(a[0]), Collect(a[1..], pattern);
      if line != "" && !Hit(pattern, line) && more.matched.None? {
        ConcatAssociates([line], more.lines, Collect(b, pattern).lines);
      }
    }
  }

  /** What was reported and the unfinished line `buf`, together with the rest of the stream, make up the goal. */
  ghost predicate OnTheWay(lines: seq<string>, buf: string, rest: string, pattern: Option<string>, goal: Report) {
    goal == After(lines, Collect(Split(buf + rest), pattern))
  }

  lemma {:induction false} ChunkStep(lines: seq<string>, buf: string, chunk: string, rest: string,
                                     pattern: Option<string>, goal: Report)
    requires OnTheWay(lines, buf, chunk + rest, pattern, goal)
    ensures var pieces := Split(buf + chunk);
            var got := Collect(Init(pieces), pattern);
            if got.matched.Some? then goal == After(lines, got)
            else OnTheWay(lines + got.lines, Last(pieces), rest, pattern, goal)
  {
    var pieces := Split(buf + chunk);
    assert buf + (chunk + rest) == (buf + chunk) + rest;
    SplitContinues(buf + chunk, rest);
    CollectAppends(Init(pieces), Split(Last(pieces) + rest), pattern);
    ConcatAssociates(lines, Collect(Init(pieces), pattern).lines, Collect(Split(Last(pieces) + rest), pattern).lines);
  }

  /** The last piece of `c` followed by a text whose pieces are `rest`. */
  lemma LastOfLonger(c: char, rest: seq<string>)
    requires rest != []
    ensures Last([""] + rest) == Last(rest)
    ensures Last(Glue(c, rest)) == if |rest| == 1 then [c] + rest[0] else Last(rest)
  {
  }

  lemma {:induction false} LastPieceIsOnePiece(s: string)
    ensures Split(Last(Split(s))) == [Last(Split(s))]
  {
    if s != "" {
      var rest := Split(s[1..]);
      LastPieceIsOnePiece(s[1..]);
      LastOfLonger(s[0], rest);
      if s[0] != NEWLINE && |rest| == 1 {
        SplitOnePiece(s[0], rest[0], "");
        assert rest[0] + "" == rest[0] && ([s[0]] + rest[0]) + "" == [s[0]] + rest[0];
      }
    }
  }

  lemma {:induction false} OnePieceIsWhole(s: string)
    requires |Split(s)| == 1
    ensures Split(s)[0] == s
  {
    if s != "" {
      OnePieceIsWhole(s[1..]);
    }
  }

  lemma {:induction false} EmptyLastPiece(s: string)
    ensures Last(Split(s)) == "" <==> s == "" || s[|s| - 1] == NEWLINE
  {
    if s != "" {
      var rest := Split(s[1..]);
      EmptyLastPiece(s[1..]);
      LastOfLonger(s[0], rest);
      if |rest| == 1 {
        OnePieceIsWhole(s[1..]);
      } else {
        assert s[1..] != "" && s[1..][|s[1..]| - 1] == s[|s| - 1];
      }
    }
  }

  lemma {:induction false} BlankTail(raw: seq<string>, pattern: Option<string>)
    requires raw != [] && Last(raw) == ""
    ensures Collect(raw, pattern) == Collect(Init(raw), pattern)
  {
    assert raw == Init(raw) + [""];
    CollectAppends(Init(raw), [""], pattern);
    assert Collect([""], pattern) == Report([], None);
  }

  /** The inner loop over the pieces of one read. */
  method Walk(raw: seq<string>, lines: seq<string>, pattern: Option<string>)
    returns (all: seq<string>, matched: Option<string>)
    ensures Report(all, matched) == After(lines, Collect(raw, pattern))
  {
    all, matched := lines, None;
    for i := 0 to |raw|
      invariant After(lines, Collect(raw, pattern)) == After(all, Collect(raw[i..], pattern))
    {
      var stripped := Strip(raw[i]);
      assert raw[i..][1..] == raw[i + 1..];
      if stripped != "" {
        ConcatAssociates(all, [stripped], Collect(raw[i + 1..], pattern).lines);
        all := all + [stripped];
        if Hit(pattern, stripped) {
          return all, Some(stripped);
        }
      }
    }
  }

  /** One read: the complete lines in it are walked over, and the last, unfinished one is kept. */
  method TakeChunk(lines: seq<string>, buf: string, chunk: string, pattern: Option<string>,
                   ghost rest: string, ghost goal: Report)
    returns (all: seq<string>, kept: string, matched: Option<string>)
    requires chunk != "" && OnTheWay(lines, buf, chunk + rest, pattern, goal)
    ensures matched.Some? ==> goal == Report(all, matched)
    ensures matched.None? ==> OnTheWay(all, kept, rest, pattern, goal) && Split(kept) == [kept]
  {
    var text := buf + chunk;
    var newLines := Split(text);
    ChunkStep(lines, buf, chunk, rest, pattern, goal);
    LastPieceIsOnePiece(text);
    EmptyLastPiece(text);
    if text[|text| - 1] != NEWLINE {
      kept := Last(newLines);
      newLines := Init(newLines);
    } else {
      BlankTail(newLines, pattern);
      kept := "";
    }
    all, matched := Walk(newLines, lines, pattern);
  }

  /** What is left when the deadline comes. */
  method TakeTail(lines: seq<string>, buf: string, pattern: Option<string>)
    returns (all: seq<string>, matched: Option<string>)
    ensures Report(all, matched) == After(lines, Collect([buf], pattern))
  {
    all, matched := lines, None;
    assert lines + [] == lines && Collect([], pattern) == Report([], None);
    if buf != "" {
      var stripped := Strip(buf);
      if stripped != "" {
        all := lines + [stripped];
        if Hit(pattern, stripped) {
          return all, Some(stripped);
        }
      }
    }
  }

  /**
   * `_read_serial_lines`: whatever the reads bring until the deadline, the report is that of the whole
   * stream; so it does not depend on where the stream is cut.
   */
  method ReadSerialLines(chunks: seq<string>, pattern: Option<string>)
    returns (lines: seq<string>, matched: Option<string>)
    ensures Report(lines, matched) == ReportOf(Concat(chunks), pattern)
  {
    lines, matched := [], None;
    var buf := "";
    ghost var goal := Collect(Split(Concat(chunks)), pattern);
    CollectIsReference(Split(Concat(chunks)), pattern);
    assert "" + Concat(chunks) == Concat(chunks) && After([], goal) == goal;
    assert chunks[0..] == chunks;
    for i := 0 to |chunks|
      invariant OnTheWay(lines, buf, Concat(chunks[i..]), pattern, goal)
      invariant Split(buf) == [buf] && matched == None
    {
      var chunk := chunks[i];
      ghost var rest := Concat(chunks[i + 1..]);
      assert chunks[i..][1..] == chunks[i + 1..];
      if chunk != "" {
        lines, buf, matched := TakeChunk(lines, buf, chunk, pattern, rest, goal);
        if matched.Some? {
          return;
        }
      } else {
        assert chunk + rest == rest;
      }
    }
    assert Concat(chunks[|chunks|..]) == "" && buf + "" == buf;
    lines, matched := TakeTail(lines, buf, pattern);
  }
}
