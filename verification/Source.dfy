/** The line and token view of a source text. */
module Source {
  import opened Text

  datatype LineEnding = NoEnding | Lf | CrLf

  datatype Line = Line(content: TextRange, ending: TextRange, full: TextRange, kind: LineEnding)

  datatype TokenKind = TextToken | Whitespace | Comment | Delimiter | UnsupportedToken | EndingToken(ending: LineEnding)

  datatype Token = Token(kind: TokenKind, range: TextRange)

  datatype Document = Document(source: Text, lines: seq<Line>, tokens: seq<Token>)

  datatype BuildResult = Built(document: Document) | LineLimitExceeded(limit: nat, actual: nat)

  /** The text of a range, when both ends are character boundaries. */
  function TextOf(v: Text, r: TextRange): Option<Text> {
    if r.end <= |v| && Boundary(v, r.start) && Boundary(v, r.end) then Some(v[r.start..r.end]) else None
  }

  // ---------------------------------------------------------------- lines

  function MakeLine(start: nat, contentEnd: nat, fullEnd: nat, kind: LineEnding): Line
    requires start <= contentEnd <= fullEnd
  {
    Line(Range(start, contentEnd), Range(contentEnd, fullEnd), Range(start, fullEnd), kind)
  }

  function EndingAt(v: Text, i: nat): LineEnding
    requires i < |v|
  {
    if v[i] == '\r' && i + 1 < |v| && v[i + 1] == '\n' then CrLf
    else if v[i] == '\n' then Lf
    else NoEnding
  }

  function EndingLength(kind: LineEnding): nat {
    match kind case NoEnding => 0 case Lf => 1 case CrLf => 2
  }

  /** The lines of `v[start..]`, whose first line has no ending before `cursor`. */
  function LinesFrom(v: Text, start: nat, cursor: nat): (r: seq<Line>)
    requires start <= cursor <= |v|
    ensures r != []
    decreases |v| - cursor
  {
    if cursor == |v| then [MakeLine(start, |v|, |v|, NoEnding)]
    else
      var kind := EndingAt(v, cursor);
      if kind.NoEnding? then LinesFrom(v, start, cursor + 1)
      else
        var end := cursor + EndingLength(kind);
        [MakeLine(start, cursor, end, kind)] + LinesFrom(v, end, end)
  }

  function Lines(v: Text): seq<Line> { LinesFrom(v, 0, 0) }

  /** One physical line: its parts are adjacent, its ending is the first one in it, and
      only the last line of a text has none. */
  ghost predicate LineOk(v: Text, l: Line) {
    && l.full.end <= |v|
    && l.full.start == l.content.start && l.content.end == l.ending.start && l.ending.end == l.full.end
    && l.ending.end == l.ending.start + EndingLength(l.kind)
    && (forall i :: l.content.start <= i < l.content.end ==> EndingAt(v, i).NoEnding?)
    && (if l.kind.NoEnding? then l.full.end == |v| else EndingAt(v, l.content.end) == l.kind)
  }

  /** The lines of `v` from offset `from` on: adjacent, well formed, the last one unterminated. */
  ghost predicate LinesOk(v: Text, lines: seq<Line>, from: nat) {
    && lines != []
    && lines[0].full.start == from
    && LineOk(v, lines[0])
    && (if lines[0].kind.NoEnding? then |lines| == 1 else LinesOk(v, lines[1..], lines[0].full.end))
  }

  lemma {:induction false} LinesFromOk(v: Text, start: nat, cursor: nat)
    requires start <= cursor <= |v| && forall i :: start <= i < cursor ==> EndingAt(v, i).NoEnding?
    ensures LinesOk(v, LinesFrom(v, start, cursor), start)
    decreases |v| - cursor
  {
    if cursor < |v| {
      var kind := EndingAt(v, cursor);
      if kind.NoEnding? {
        LinesFromOk(v, start, cursor + 1);
      } else {
        var end := cursor + EndingLength(kind);
        LinesFromOk(v, end, end);
        assert LinesFrom(v, start, cursor)[1..] == LinesFrom(v, end, end);
      }
    }
  }

  /** Any decomposition that meets the definition is the one the scan finds. */
  lemma {:induction false} LinesUnique(v: Text, lines: seq<Line>, start: nat, cursor: nat)
    requires start <= cursor <= |v| && LinesOk(v, lines, start) && cursor <= lines[0].content.end
    ensures lines == LinesFrom(v, start, cursor)
    decreases |v| - cursor
  {
    var l := lines[0];
    if cursor < l.content.end {
      LinesUnique(v, lines, start, cursor + 1);
    } else if cursor < |v| {
      assert !l.kind.NoEnding?;
      LinesUnique(v, lines[1..], l.full.end, l.full.end);
      assert lines == [l] + lines[1..];
    } else {
      assert l.kind.NoEnding?;
      assert lines == [l];
    }
  }

  // ---------------------------------------------------------------- tokens

  predicate Blank(c: char) { c == ' ' || c == '\t' }

  function KindOf(c: char): TokenKind { if Blank(c) then Whitespace else TextToken }

  function LeadingBlanks(v: Text, i: nat, end: nat): (r: nat)
    requires i <= end <= |v|
    ensures i <= r <= end && (r < end ==> !Blank(v[r])) && forall j :: i <= j < r ==> Blank(v[j])
    decreases end - i
  {
    if i < end && Blank(v[i]) then LeadingBlanks(v, i + 1, end) else i
  }

  /** Alternating runs of blanks and text; the current run began at `run` and reaches `i`. */
  function Runs(v: Text, run: nat, i: nat, end: nat): seq<Token>
    requires run < i <= end <= |v|
    decreases end - i
  {
    if i == end then [Token(KindOf(v[run]), Range(run, end))]
    else if KindOf(v[i]) == KindOf(v[run]) then Runs(v, run, i + 1, end)
    else [Token(KindOf(v[run]), Range(run, i))] + Runs(v, i, i + 1, end)
  }

  function ContentTokens(v: Text, start: nat, end: nat): seq<Token>
    requires start <= end <= |v|
  {
    var text := LeadingBlanks(v, start, end);
    if text + 2 <= end && v[text] == '/' && v[text + 1] == '/' then
      (if start < text then [Token(Whitespace, Range(start, text))] else []) + [Token(Comment, Range(text, end))]
    else if start < end then Runs(v, start, start + 1, end)
    else []
  }

  function LineTokens(v: Text, l: Line): seq<Token>
    requires LineOk(v, l)
  {
    ContentTokens(v, l.content.start, l.content.end)
    + if l.kind.NoEnding? then [] else [Token(EndingToken(l.kind), l.ending)]
  }

  function TokensOf(v: Text, lines: seq<Line>, from: nat): seq<Token>
    requires LinesOk(v, lines, from)
    decreases |lines|
  {
    LineTokens(v, lines[0])
    + if lines[0].kind.NoEnding? then [] else TokensOf(v, lines[1..], lines[0].full.end)
  }

  /** Non-empty tokens of whole characters that follow each other from `from` to `end`. */
  ghost predicate TokensTile(v: Text, s: seq<Token>, from: nat, end: nat) {
    if s == [] then from == end
    else
      var r := s[0].range;
      && r.start == from && r.start < r.end <= |v|
      && Boundary(v, r.start) && Boundary(v, r.end)
      && TokensTile(v, s[1..], r.end, end)
  }

  lemma {:induction false} TokensAppend(v: Text, a: seq<Token>, b: seq<Token>, from: nat, mid: nat, end: nat)
    requires TokensTile(v, a, from, mid) && TokensTile(v, b, mid, end)
    ensures TokensTile(v, a + b, from, end)
    decreases |a|
  {
    if a == [] {
      assert a + b == b;
    } else {
      TokensAppend(v, a[1..], b, a[0].range.end, mid, end);
      assert (a + b)[1..] == a[1..] + b;
    }
  }

  /** A change between blank and text happens at a character boundary. */
  lemma RunBoundary(v: Text, i: nat)
    requires Valid(v) && 0 < i < |v| && KindOf(v[i]) != KindOf(v[i - 1])
    ensures Boundary(v, i)
  {
    if Blank(v[i]) {
      AsciiIsWhole(v, i);
    } else {
      AsciiIsWhole(v, i - 1);
    }
  }

  lemma {:induction false} RunsTile(v: Text, run: nat, i: nat, end: nat)
    requires Valid(v) && run < i <= end <= |v| && Boundary(v, run) && Boundary(v, end)
    requires forall j :: run <= j < i ==> KindOf(v[j]) == KindOf(v[run])
    ensures TokensTile(v, Runs(v, run, i, end), run, end)
    decreases end - i
  {
    if i == end {
      assert TokensTile(v, [], end, end);
    } else if KindOf(v[i]) == KindOf(v[run]) {
      RunsTile(v, run, i + 1, end);
    } else {
      assert KindOf(v[i - 1]) == KindOf(v[run]);
      RunBoundary(v, i);
      RunsTile(v, i, i + 1, end);
      assert Runs(v, run, i, end)[1..] == Runs(v, i, i + 1, end);
    }
  }

  lemma NothingTiles(v: Text, at: nat)
    ensures TokensTile(v, [], at, at)
  {
  }

  lemma CommentTiles(v: Text, start: nat, text: nat, end: nat)
    requires start <= text < end <= |v| && Boundary(v, start) && Boundary(v, text) && Boundary(v, end)
    ensures TokensTile(v, (if start < text then [Token(Whitespace, Range(start, text))] else [])
      + [Token(Comment, Range(text, end))], start, end)
  {
    hide Boundary;
    var comment := Token(Comment, Range(text, end));
    assert TokensTile(v, [], end, end);
    assert TokensTile(v, [comment], text, end);
    if start < text {
      assert ([Token(Whitespace, Range(start, text))] + [comment])[1..] == [comment];
    } else {
      assert [] + [comment] == [comment];
    }
  }

  lemma ContentTokensTile(v: Text, start: nat, end: nat)
    requires Valid(v) && start <= end <= |v| && Boundary(v, start) && Boundary(v, end)
    ensures TokensTile(v, ContentTokens(v, start, end), start, end)
  {
    hide Valid, TokensTile, Runs;
    var text := LeadingBlanks(v, start, end);
    if text + 2 <= end && v[text] == '/' && v[text + 1] == '/' {
      AsciiIsWhole(v, text);
      CommentTiles(v, start, text, end);
    } else if start < end {
      RunsTile(v, start, start + 1, end);
    } else {
      NothingTiles(v, start);
    }
  }

  lemma LineTokensTile(v: Text, l: Line)
    requires Valid(v) && LineOk(v, l) && Boundary(v, l.full.start)
    ensures Boundary(v, l.content.end) && Boundary(v, l.full.end)
    ensures TokensTile(v, LineTokens(v, l), l.full.start, l.full.end)
  {
    if !l.kind.NoEnding? {
      AsciiIsWhole(v, l.content.end);
      AsciiIsWhole(v, l.full.end - 1);
      var ending := Token(EndingToken(l.kind), l.ending);
      assert TokensTile(v, [], l.full.end, l.full.end);
      ContentTokensTile(v, l.content.start, l.content.end);
      TokensAppend(v, ContentTokens(v, l.content.start, l.content.end), [ending], l.full.start, l.content.end,
        l.full.end);
    } else {
      ContentTokensTile(v, l.content.start, l.content.end);
      assert LineTokens(v, l) == ContentTokens(v, l.content.start, l.content.end);
    }
  }

  /** The tokens of a text partition it. */
  lemma {:induction false} TokensPartition(v: Text, lines: seq<Line>, from: nat)
    requires Valid(v) && LinesOk(v, lines, from) && Boundary(v, from)
    ensures TokensTile(v, TokensOf(v, lines, from), from, |v|)
    decreases |lines|
  {
    var l := lines[0];
    LineTokensTile(v, l);
    if l.kind.NoEnding? {
      assert TokensOf(v, lines, from) == LineTokens(v, l);
    } else {
      TokensPartition(v, lines[1..], l.full.end);
      TokensAppend(v, LineTokens(v, l), TokensOf(v, lines[1..], l.full.end), from, l.full.end, |v|);
    }
  }

  /** Each line of a table is well formed, on boundaries, and ends where the next one starts. */
  lemma {:induction false} LinesAt(v: Text, lines: seq<Line>, from: nat, i: nat)
    requires Valid(v) && LinesOk(v, lines, from) && Boundary(v, from) && i < |lines|
    ensures LineOk(v, lines[i]) && from <= lines[i].full.start
    ensures Boundary(v, lines[i].full.start) && Boundary(v, lines[i].content.end) && Boundary(v, lines[i].full.end)
    ensures lines[i].full.end == if i + 1 < |lines| then lines[i + 1].full.start else |v|
    ensures i + 1 < |lines| ==> lines[i].full.start < lines[i].full.end
    decreases |lines|
  {
    hide TokensTile;
    LineTokensTile(v, lines[0]);
    if i > 0 {
      LinesAt(v, lines[1..], lines[0].full.end, i - 1);
    }
  }

  /** Only the last line has no ending. */
  lemma {:induction false} LastIsBare(v: Text, lines: seq<Line>, from: nat, i: nat)
    requires LinesOk(v, lines, from) && i < |lines|
    ensures lines[i].kind.NoEnding? <==> i + 1 == |lines|
    decreases |lines|
  {
    hide LineOk;
    if i > 0 {
      LastIsBare(v, lines[1..], lines[0].full.end, i - 1);
    } else if !lines[0].kind.NoEnding? {
      assert lines[1..] != [];
    }
  }

  // ---------------------------------------------------------------- construction

  /** What every document holds: the unique line table of its source and its tokens. */
  ghost predicate DocumentOk(d: Document) {
    && Valid(d.source)
    && LinesOk(d.source, d.lines, 0)
    && d.tokens == TokensOf(d.source, d.lines, 0)
  }

  predicate LongLine(l: Line, limit: nat) {
    limit < l.content.end - l.content.start
  }

  method PushContentTokens(v: Text, start: nat, end: nat, tokens: seq<Token>) returns (r: seq<Token>)
    requires start <= end <= |v|
    ensures r == tokens + ContentTokens(v, start, end)
  {
    r := tokens;
    var text := start;
    while text < end && Blank(v[text])
      invariant start <= text <= end
      invariant LeadingBlanks(v, start, end) == LeadingBlanks(v, text, end)
    {
      text := text + 1;
    }
    if text + 2 <= end && v[text] == '/' && v[text + 1] == '/' {
      if start < text {
        r := r + [Token(Whitespace, Range(start, text))];
      }
      r := r + [Token(Comment, Range(text, end))];
      return;
    }
    if start == end {
      return;
    }
    var run, i := start, start + 1;
    while i < end
      invariant start <= run < i <= end
      invariant tokens + Runs(v, start, start + 1, end) == r + Runs(v, run, i, end)
    {
      if KindOf(v[i]) != KindOf(v[run]) {
        assert r + ([Token(KindOf(v[run]), Range(run, i))] + Runs(v, i, i + 1, end))
            == r + [Token(KindOf(v[run]), Range(run, i))] + Runs(v, i, i + 1, end);
        r := r + [Token(KindOf(v[run]), Range(run, i))];
        run := i;
      }
      i := i + 1;
    }
    r := r + [Token(KindOf(v[run]), Range(run, end))];
  }

  /** The scan meets a line ending at `cursor`: what it adds and what is left. */
  lemma LineStep(v: Text, start: nat, cursor: nat)
    requires start <= cursor < |v| && !EndingAt(v, cursor).NoEnding?
    requires forall i :: start <= i < cursor ==> EndingAt(v, i).NoEnding?
    ensures var kind := EndingAt(v, cursor); var end := cursor + EndingLength(kind);
      var l, rest := MakeLine(start, cursor, end, kind), LinesFrom(v, end, end);
      && LineOk(v, l) && LinesOk(v, rest, end)
      && LinesFrom(v, start, cursor) == [l] + rest && LinesOk(v, [l] + rest, start)
      && TokensOf(v, [l] + rest, start)
         == ContentTokens(v, start, cursor) + [Token(EndingToken(kind), Range(cursor, end))] + TokensOf(v, rest, end)
  {
    var kind := EndingAt(v, cursor);
    var end := cursor + EndingLength(kind);
    var l, rest := MakeLine(start, cursor, end, kind), LinesFrom(v, end, end);
    LinesFromOk(v, start, cursor);
    LinesFromOk(v, end, end);
    assert ([l] + rest)[1..] == rest;
  }

  lemma LastLine(v: Text, start: nat)
    requires start <= |v| && forall i :: start <= i < |v| ==> EndingAt(v, i).NoEnding?
    ensures var l := MakeLine(start, |v|, |v|, NoEnding);
      && LinesFrom(v, start, |v|) == [l] && LinesOk(v, [l], start)
      && TokensOf(v, [l], start) == ContentTokens(v, start, |v|)
  {
    assert ContentTokens(v, start, |v|) + [] + [] == ContentTokens(v, start, |v|);
  }

  /** One pass over the bytes cuts the text into lines and tokens, or stops at the first
      line whose content is over the limit. */
  method BuildDocument(v: Text, maxLineBytes: nat) returns (r: BuildResult)
    requires Valid(v)
    ensures r.Built? <==> forall l :: l in Lines(v) ==> !LongLine(l, maxLineBytes)
    ensures r.Built? ==> DocumentOk(r.document) && r.document.source == v && r.document.lines == Lines(v)
    ensures r.LineLimitExceeded? ==> r.limit == maxLineBytes < r.actual
  {
    hide LinesFrom, TokensOf, ContentTokens, LinesOk, LineOk;
    LinesFromOk(v, 0, 0);
    var lines: seq<Line>, tokens: seq<Token> := [], [];
    var start: nat, cursor: nat := 0, 0;
    while cursor < |v|
      invariant start <= cursor <= |v|
      invariant forall i :: start <= i < cursor ==> EndingAt(v, i).NoEnding?
      invariant Lines(v) == lines + LinesFrom(v, start, cursor)
      invariant LinesOk(v, LinesFrom(v, start, cursor), start)
      invariant TokensOf(v, Lines(v), 0) == tokens + TokensOf(v, LinesFrom(v, start, cursor), start)
      invariant forall l :: l in lines ==> !LongLine(l, maxLineBytes)
      decreases |v| - cursor
    {
      var kind := EndingAt(v, cursor);
      if kind.NoEnding? {
        Unterminated(v, start, cursor);
        cursor := cursor + 1;
        continue;
      }
      var end := cursor + EndingLength(kind);
      var l := MakeLine(start, cursor, end, kind);
      LineStep(v, start, cursor);
      assert l in Lines(v);
      if maxLineBytes < cursor - start {
        return LineLimitExceeded(maxLineBytes, cursor - start);
      }
      lines := lines + [l];
      tokens := PushContentTokens(v, start, cursor, tokens);
      tokens := tokens + [Token(EndingToken(kind), Range(cursor, end))];
      start, cursor := end, end;
    }
    var l := MakeLine(start, |v|, |v|, NoEnding);
    LastLine(v, start);
    assert l in Lines(v);
    if maxLineBytes < |v| - start {
      return LineLimitExceeded(maxLineBytes, |v| - start);
    }
    tokens := PushContentTokens(v, start, |v|, tokens);
    r := Built(Document(v, lines + [l], tokens));
  }

  lemma Unterminated(v: Text, start: nat, cursor: nat)
    requires start <= cursor < |v| && EndingAt(v, cursor).NoEnding?
    ensures LinesFrom(v, start, cursor) == LinesFrom(v, start, cursor + 1)
  {
  }

  // ---------------------------------------------------------------- reconstruction

  function Joined(v: Text, s: seq<Token>): Text
    requires forall k :: k in s ==> k.range.end <= |v|
  {
    if s == [] then [] else v[s[0].range.start..s[0].range.end] + Joined(v, s[1..])
  }

  /** Tokens that tile a stretch of text spell it. */
  lemma {:induction false} TokensSpell(v: Text, s: seq<Token>, from: nat, end: nat)
    requires TokensTile(v, s, from, end) && from <= end <= |v|
    ensures forall k :: k in s ==> k.range.end <= |v|
    ensures Joined(v, s) == v[from..end]
    decreases |s|
  {
    if s != [] {
      TokensEnd(v, s[1..], s[0].range.end, end);
      TokensSpell(v, s[1..], s[0].range.end, end);
      assert forall k :: k in s <==> k == s[0] || k in s[1..];
    }
  }

  lemma {:induction false} TokensEnd(v: Text, s: seq<Token>, from: nat, end: nat)
    requires TokensTile(v, s, from, end)
    ensures from <= end
    decreases |s|
  {
    if s != [] {
      TokensEnd(v, s[1..], s[0].range.end, end);
    }
  }

  /** The token list alone spells the source. */
  lemma DocumentIsLossless(d: Document)
    requires DocumentOk(d)
    ensures TokensTile(d.source, d.tokens, 0, |d.source|)
    ensures forall k :: k in d.tokens ==> k.range.end <= |d.source|
    ensures Joined(d.source, d.tokens) == d.source
  {
    TokensPartition(d.source, d.lines, 0);
    TokensSpell(d.source, d.tokens, 0, |d.source|);
  }
}
