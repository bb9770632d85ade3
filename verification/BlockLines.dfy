/** The invariant is kept by every line that does not open nested blocks. */
module BlockLines {
  import opened Text
  import opened Source
  import opened BlockGrammar
  import opened BlockModel
  import opened BlockState
  import opened BlockTiling
  import opened BlockSteps
  import opened BlockParser
  import opened Delimiter
  import N = InlineNodes
  import S = Syntax

  /** No author or revision line is expected. */
  predicate Quiet(st: State) {
    st.header.Some? ==> !st.header.value.author && !st.header.value.revision
  }

  lemma HeaderKeeps(c: Context, st: State, h: Option<Header>, saw: bool, start: nat, end: nat)
    requires Inv(c, st, start, end)
    requires h.Some? && (h.value.author || h.value.revision) ==> st.paragraph == [] && st.pending.syntax == []
    ensures Inv(c, st.(header := h, sawContent := saw), start, end)
  {
    hide Ready, Tiled, PendingFits, S.AllWellNested, AllLand, ParagraphFits;
  }

  lemma ClassFacts(c: Context, st: State, end: nat)
    requires st.line < end <= LineCount(c)
    ensures var k, content := ClassAt(c, st, end), Content(c, st.line);
      && (k != Math ==> Is(c, st.line, k) && HasFormOf(c.grammar, content, None, k))
      && (k == BlankText <==> AllBlank(content))
      && (k == Math ==>
            && st.line + 1 < end && BlockAttributes(content) && c.grammar.math(content)
            && Content(c, st.line + 1) == "++++")
      && (k != ParagraphText ==> ParagraphEnds(c, st.line, end))
  {
    hide Ready, Content, SetOff, FirstForm, HasFormOf, Classify;
    var content := Content(c, st.line);
    var next := if st.line + 1 < end then Some(Content(c, st.line + 1)) else None;
    var k := ClassAt(c, st, end);
    ClassOfLine(c.grammar, content, next, AttributePosition(c, st));
    ClassIsFirst(c.grammar, content, next, AttributePosition(c, st));
    FirstMeans(c.grammar, content, next, k);
    if k != Math {
      NextIsIrrelevant(c.grammar, content, next, k);
      FirstMeans(c.grammar, content, None, k);
    }
  }

  /** A line with the form of another class is paragraph text only as a document attribute. */
  lemma FirstMeans(g: Grammar, t: Text, next: Option<Text>, k: LineClass)
    requires FirstForm(g, t, next, k)
    ensures HasFormOf(g, t, next, k)
    ensures k == Math ==> BlockAttributes(t) && g.math(t) && next == Some("++++")
    ensures k != ParagraphText ==> !FirstForm(g, t, None, ParagraphText) || AttributeLine(t)
  {
    hide DelimiterOf, AnchorLine, BlockTitle, BlockAttributes, Starts, AllBlank, AttributeLine, StartsBlank, MarkerOf,
      UnsupportedForm;
    if k != ParagraphText && k != AttributeText {
      var j := if k == Math then Metadata else k;
      assert HasFormOf(g, t, None, j) && Rank(j) < Rank(ParagraphText);
    }
  }

  // ---------------------------------------------------------------- blocks without text

  /** A block whose node is a row of well-nested nodes over its lines. */
  lemma RowIsBlock(c: Context, n: S.Node, m: nat, b: nat, end: nat)
    requires m < b <= LineCount(c) && n.range == Span(c, m, b) && S.IsBlock(n.kind) && n.kind != S.DelimitedBlock
    requires N.Row(n.children, n.range.start, n.range.end) && MadeOf(c, n.kind, m, b, end)
    requires Holds(c, n.kind, n.children, m, b, end)
    ensures BlockOver(c, n, m, b, end)
  {
    hide Ready, LineStart, MadeOf, N.Row, Holds;
    NothingWaits(c, n, m, b, end);
  }

  lemma LinesAreBlock(c: Context, kind: S.Kind, m: nat, b: nat, end: nat)
    requires m < b <= LineCount(c) && S.IsBlock(kind) && kind != S.DelimitedBlock && MadeOf(c, kind, m, b, end)
    requires Holds(c, kind, [], m, b, end)
    ensures BlockOver(c, S.Leaf(kind, Span(c, m, b)), m, b, end) && S.AllWellNested(c.document.source, [])
  {
    hide Ready, LineStart, MadeOf, Holds;
    LinesAscend(c, m, b);
    RowIsBlock(c, S.Leaf(kind, Span(c, m, b)), m, b, end);
  }

  lemma OpeningRow(v: Text, r: TextRange, closed: bool)
    requires TextOf(v, r).Some?
    ensures N.Row([Opening(r, closed)], r.start, r.end) && S.AllWellNested(v, [Opening(r, closed)])
  {
    hide N.Row, S.AllWellNested;
    N.LeafRow(v, S.BlockDelimiter, r);
    if !closed {
      RowNode(v, Opening(r, closed));
    }
  }

  lemma ContentIsText(c: Context, j: nat)
    requires j < LineCount(c)
    ensures var l := LineAt(c, j);
      && TextOf(c.document.source, l.content).Some?
      && LineStart(c, j) == l.content.start && l.content.end <= LineStart(c, j + 1) && l.full == Span(c, j, j + 1)
  {
    hide Ready;
    LineFacts(c, j);
    LineSpan(c, j);
  }

  lemma MathIsMade(c: Context, i: nat, end: nat)
    requires i + 1 < end <= LineCount(c)
    requires BlockAttributes(Content(c, i)) && c.grammar.math(Content(c, i)) && Content(c, i + 1) == "++++"
    ensures MadeOf(c, S.MathBlock, i, BodyOf(c, i + 1, "++++", end).next, end)
  {
    hide Ready, Content, BlockAttributes;
  }

  lemma MathIsHeld(c: Context, i: nat, end: nat)
    requires i + 1 < end <= LineCount(c)
    ensures var body := BodyOf(c, i + 1, "++++", end);
      Holds(c, S.MathBlock, [S.Leaf(S.BlockAttribute, LineAt(c, i).content),
                             Opening(LineAt(c, i + 1).content, body.closed)], i, body.next, end)
  {
    hide Ready, Content, BodyOf, Opening;
  }

  lemma MathIsBlock(c: Context, i: nat, end: nat)
    requires i + 1 < end <= LineCount(c)
    requires BlockAttributes(Content(c, i)) && c.grammar.math(Content(c, i)) && Content(c, i + 1) == "++++"
    ensures var r := MathBlock(c, i, end);
      && r.Ok? && i < r.value.1 <= end && BlockOver(c, r.value.0, i, r.value.1, end)
      && S.AllWellNested(c.document.source, r.value.0.children)
  {
    hide Ready, LineStart, Content, N.Row, S.AllWellNested, BlockOver, BlockAttributes, TextOf, MadeOf, BodyOf, Opening,
      Holds;
    var v, body := c.document.source, BodyOf(c, i + 1, "++++", end);
    MathIsMade(c, i, end);
    var attribute, opener := LineAt(c, i).content, LineAt(c, i + 1).content;
    ContentIsText(c, i);
    ContentIsText(c, i + 1);
    LinesAscend(c, i + 2, body.next);
    LinesAscend(c, i, i + 1);
    LinesAscend(c, i + 1, i + 2);
    N.LeafRow(v, S.BlockAttribute, attribute);
    OpeningRow(v, opener, body.closed);
    var first, second := [S.Leaf(S.BlockAttribute, attribute)], [Opening(opener, body.closed)];
    N.RowGap(first, second, attribute.start, attribute.end, opener.start, opener.end);
    N.WellNestedAppend(v, first, second);
    var n := S.Node(S.MathBlock, Span(c, i, body.next), first + second);
    RowWithin(first + second, attribute.start, opener.end, n.range.start, n.range.end);
    assert first + second == [S.Leaf(S.BlockAttribute, attribute), Opening(opener, body.closed)];
    MathIsHeld(c, i, end);
    RowIsBlock(c, n, i, body.next, end);
  }

  /** Cutting a line between its heading marker and its text. */
  lemma HeadingCuts(c: Text)
    requires Valid(c)
    ensures var h := HeadingOf(c); Boundary(c, h.marker) && Boundary(c, h.text) && Boundary(c, h.textEnd)
  {
    hide Valid, Run, TrimmedEnd;
    var h := HeadingOf(c);
    if 0 < h.marker {
      AsciiIsWhole(c, h.marker - 1);
    } else {
      FirstIsWhole(c);
    }
    if h.spaced {
      AsciiIsWhole(c, h.marker);
    }
    TrimLands(c, h.text);
  }

  lemma FirstIsWhole(c: Text)
    requires Valid(c)
    ensures Boundary(c, 0)
  {
  }

  lemma HeadingLands(v: Text, from: nat, end: nat)
    requires Valid(v) && from <= end <= |v| && Boundary(v, from) && Boundary(v, end)
    ensures var h := HeadingOf(v[from..end]);
      && TextOf(v, Range(from, from + h.marker)).Some?
      && TextOf(v, Range(from + h.text, from + h.textEnd)).Some?
  {
    hide Valid, HeadingOf, Boundary;
    SliceIsValid(v, from, end);
    HeadingCuts(v[from..end]);
  }

  lemma TrimLands(c: Text, at: nat)
    requires Valid(c) && at <= |c| && Boundary(c, at)
    ensures Boundary(c, at + TrimmedEnd(c[at..]))
  {
    var e := TrimmedEnd(c[at..]);
    if at + e < |c| {
      assert Blank(c[at..][e]);
    }
  }

  lemma HeadingIsBlock(c: Context, i: nat, position: bool, end: nat)
    requires i < LineCount(c) && Is(c, i, HeadingText)
    ensures var n := HeadingNode(c, i, position);
      BlockOver(c, n, i, i + 1, end) && S.AllWellNested(c.document.source, n.children)
  {
    hide Ready, LineStart, N.Row, S.AllWellNested, BlockOver, TextOf, Is, HeadingOf, HeadingKind,
      PlainNodes, Content;
    var v, l := c.document.source, LineAt(c, i);
    HeadingRanges(c, i);
    ContentIsText(c, i);
    var h := HeadingOf(Content(c, i));
    var marker, text := Range(l.content.start, l.content.start + h.marker),
      Range(l.content.start + h.text, l.content.start + h.textEnd);
    N.LeafRow(v, S.HeadingMarker, marker);
    PlainNodesRow(c, text);
    N.RowGap([S.Leaf(S.HeadingMarker, marker)], PlainNodes(c, text), marker.start, marker.end, text.start, text.end);
    N.WellNestedAppend(v, [S.Leaf(S.HeadingMarker, marker)], PlainNodes(c, text));
    var n := HeadingNode(c, i, position);
    RowWithin(n.children, marker.start, text.end, n.range.start, n.range.end);
    HeadingIsMade(c, i, position, end);
    RowIsBlock(c, n, i, i + 1, end);
  }

  lemma HeadingRanges(c: Context, i: nat)
    requires i < LineCount(c)
    ensures var v, l, h := c.document.source, LineAt(c, i), HeadingOf(Content(c, i));
      && TextOf(v, Range(l.content.start, l.content.start + h.marker)).Some?
      && TextOf(v, Range(l.content.start + h.text, l.content.start + h.textEnd)).Some?
      && l.content.start + h.textEnd <= l.content.end
  {
    hide HeadingOf, TextOf;
    LineFacts(c, i);
    HeadingLands(c.document.source, LineAt(c, i).content.start, LineAt(c, i).content.end);
  }

  /** A heading has two to six equals signs, a space and text; with one it is the document title where
      that may stand; anything else is malformed. */
  lemma HeadingKindIff(t: Text, position: bool)
    requires Starts(t, "=")
    ensures var k := HeadingKind(HeadingOf(t), position);
      && (k == S.Heading <==> exists level :: 2 <= level <= 6 && HeadingLine(t, level))
      && (k == S.DocumentTitle <==> position && HeadingLine(t, 1))
      && (k == S.MalformedHeading <==> k != S.Heading && k != S.DocumentTitle)
  {
    hide Run, TrimmedEnd, HeadingLine;
    var h := HeadingOf(t);
    HeadingLineIs(t);
    assert t[0..1][0] == t[0];
    if h.spaced && h.text < h.textEnd {
      assert HeadingLine(t, h.marker);
    }
    forall level | 1 <= level <= 6 && HeadingLine(t, level) ensures level == h.marker {
      LevelIs(t, level);
    }
  }

  lemma LevelIs(t: Text, level: nat)
    requires HeadingLine(t, level)
    ensures Run(t, '=') == level
  {
    hide Run;
    assert t[level] == ' ';
    assert Run(t, '=') < |t| ==> t[Run(t, '=')] != '=';
    assert forall i :: 0 <= i < Run(t, '=') ==> t[i] == '=';
  }

  lemma HeadingLineIs(t: Text)
    ensures var h := HeadingOf(t); h.spaced && h.text < h.textEnd <==> HeadingLine(t, h.marker)
  {
    hide Run;
    var h := HeadingOf(t);
    if h.spaced {
      var rest := t[h.text..];
      var n := TrimmedEnd(rest);
      assert 0 < n ==> !Blank(t[h.text + n - 1]) && rest[n - 1] == t[h.text + n - 1];
      assert forall i :: h.text + n <= i < |t| ==> Blank(t[i]) by {
        assert forall i :: n <= i < |rest| ==> Blank(rest[i]) && rest[i] == t[h.text + i];
      }
    }
  }

  lemma HeadingStarts(c: Context, i: nat)
    requires i < LineCount(c) && Is(c, i, HeadingText)
    ensures Starts(Content(c, i), "=")
  {
  }

  lemma HeadingIsMade(c: Context, i: nat, position: bool, end: nat)
    requires i < LineCount(c) && Is(c, i, HeadingText)
    ensures var k := HeadingKind(HeadingOf(Content(c, i)), position);
      && k in {S.Heading, S.MalformedHeading, S.DocumentTitle} && MadeOf(c, k, i, i + 1, end)
      && Holds(c, k, HeadingNode(c, i, position).children, i, i + 1, end)
  {
    hide Ready, Content, HeadingOf, Is, HeadingLine, PlainNodes, Starts;
    HeadingStarts(c, i);
    HeadingKindIff(Content(c, i), position);
  }

  lemma {:induction false} LiteralStops(c: Context, i: nat, end: nat)
    requires i <= end && StopsAt(c, end)
    ensures LiteralEnd(c, i) <= end
    ensures forall j :: i <= j < LiteralEnd(c, i) ==> StartsBlank(Content(c, j))
    ensures LiteralEnd(c, i) < LineCount(c) ==> !StartsBlank(Content(c, LiteralEnd(c, i)))
    decreases end - i
  {
    hide Ready, Content, StartsBlank;
    if i < end && StartsBlank(Content(c, i)) {
      LiteralStops(c, i + 1, end);
    }
  }

  lemma LiteralIsBlock(c: Context, i: nat, end: nat)
    requires i < end && StopsAt(c, end) && Is(c, i, LiteralParagraph)
    ensures var next := LiteralEnd(c, i);
      && i < next <= end && Between(LineAt(c, i).full.start, LineAt(c, next - 1).full.end) == Ok(Span(c, i, next))
      && BlockOver(c, S.Leaf(S.LiteralBlock, Span(c, i, next)), i, next, end) && S.AllWellNested(c.document.source, [])
  {
    hide Ready, LineStart, Content, S.AllWellNested, BlockOver, StartsBlank, Is, Holds, MadeOf;
    LiteralIsIndented(c, i);
    LiteralStops(c, i, end);
    var next := LiteralEnd(c, i);
    assert i < next;
    LineSpan(c, i);
    LineSpan(c, next - 1);
    LinesAscend(c, i, next);
    LiteralIsMade(c, i, next, end);
    LiteralIsBare(c, i, next, end);
    LinesAreBlock(c, S.LiteralBlock, i, next, end);
  }

  lemma LiteralIsMade(c: Context, i: nat, next: nat, end: nat)
    requires i < next <= LineCount(c) && Is(c, i, LiteralParagraph)
    requires (forall j :: i <= j < next ==> StartsBlank(Content(c, j)))
      && (next < LineCount(c) ==> !StartsBlank(Content(c, next)))
    ensures MadeOf(c, S.LiteralBlock, i, next, end)
  {
    hide Ready, Content, Is, StartsBlank, BodyOf;
  }

  lemma LiteralIsBare(c: Context, i: nat, next: nat, end: nat)
    requires i < next <= LineCount(c) && Is(c, i, LiteralParagraph)
    ensures Holds(c, S.LiteralBlock, [], i, next, end)
  {
    hide Ready, Content, DelimiterOf;
    assert !HasFormOf(c.grammar, Content(c, i), None, Delimited);
  }

  lemma LiteralIsIndented(c: Context, i: nat)
    requires i < LineCount(c) && Is(c, i, LiteralParagraph)
    ensures StartsBlank(Content(c, i))
  {
  }

  lemma EndKnown(c: Context, end: nat)
    requires StopsAt(c, end)
    ensures end <= LineCount(c)
  {
  }

  lemma UnsupportedIsBlock(c: Context, i: nat, end: nat)
    requires i < LineCount(c) && (Is(c, i, Directive) || Is(c, i, UnsupportedText))
    ensures var r := Span(c, i, i + 1); var n := S.Node(S.Unsupported, r, [S.Leaf(S.Unknown, r)]);
      BlockOver(c, n, i, i + 1, end) && S.AllWellNested(c.document.source, n.children)
  {
    hide Ready, LineStart, Content, N.Row, S.AllWellNested, BlockOver, Is;
    var r := Span(c, i, i + 1);
    SpanIsText(c, i, i + 1);
    N.LeafRow(c.document.source, S.Unknown, r);
    RowIsBlock(c, S.Node(S.Unsupported, r, [S.Leaf(S.Unknown, r)]), i, i + 1, end);
  }

  lemma SimpleIsBlock(c: Context, k: LineClass, i: nat, end: nat)
    requires i < end && StopsAt(c, end) && k in {Break, LiteralParagraph, Directive, UnsupportedText}
    requires Is(c, i, k)
    ensures var r := SimpleBlock(c, k, i);
      && r.Ok? && i < r.value.1 <= end && BlockOver(c, r.value.0, i, r.value.1, end)
      && S.AllWellNested(c.document.source, r.value.0.children)
  {
    hide Ready, LineStart, Content, N.Row, S.AllWellNested, BlockOver, StartsBlank, LiteralEnd, StopsAt, Is;
    EndKnown(c, end);
    LineSpan(c, i);
    if k == Break {
      BreakIs(c, i);
      LinesAreBlock(c, if Content(c, i) == "'''" then S.ThematicBreak else S.PageBreak, i, i + 1, end);
    } else if k == LiteralParagraph {
      LiteralIsBlock(c, i, end);
    } else {
      UnsupportedIsBlock(c, i, end);
    }
  }

  lemma BreakIs(c: Context, i: nat)
    requires i < LineCount(c) && Is(c, i, Break)
    ensures Content(c, i) == "'''" || Content(c, i) == "<<<"
  {
  }

  // ---------------------------------------------------------------- steps

  lemma HeadingStepKeeps(c: Context, st: State, start: nat, end: nat)
    requires st.line < end <= LineCount(c) && Inv(c, st, start, end) && st.paragraph == []
    requires Is(c, st.line, HeadingText) && Quiet(st)
    ensures var r := HeadingStep(c, st, end); r.Ok? && Inv(c, r.value, start, end)
  {
    hide Ready, Inv, BlockOver, CommitBlock, HeadingNode, S.AllWellNested, Content, AllLand, LineCount, Is;
    var position := st.header.Some? && !st.sawContent;
    var node := HeadingNode(c, st.line, position);
    HeadingIsBlock(c, st.line, position, end);
    NoTexts(c);
    CommitBlockKeeps(c, st, node, [], start, st.line + 1, end);
    var done := CommitBlock(st, node, [], st.line + 1, end).value;
    HeaderKeeps(c, done, HeadingStep(c, st, end).value.header, true, start, end);
  }

  lemma FlatStepKeeps(c: Context, k: LineClass, st: State, start: nat, end: nat)
    requires st.line < end <= LineCount(c) && Inv(c, st, start, end) && StopsAt(c, end) && Quiet(st)
    requires k == ClassAt(c, st, end) && k in {Math, Break, LiteralParagraph, HeadingText, Directive, UnsupportedText}
    requires k == Math ==> st.line + 1 < end
    ensures var r := FlatStep(c, k, st, end); r.Ok? && Inv(c, r.value, start, end)
  {
    hide Ready, Inv, BlockOver, ClassAt, FlushParagraph, CommitBlock, MathBlock, SimpleBlock, HeadingNode,
      S.AllWellNested, Content, StopsAt, AllLand, TextOf, LineCount, Is;
    var i := st.line;
    ClassFacts(c, st, end);
    FlushParagraphKeeps(c, st, start, end);
    var flushed := FlushParagraph(c, st).value;
    NoTexts(c);
    EndInside(c, flushed, start, end);
    if k == Math {
      MathIsBlock(c, i, end);
      var (node, next) := MathBlock(c, i, end).value;
      CommitBlockKeeps(c, flushed, node, [], start, next, end);
      var done := CommitBlock(flushed, node, [], next, end).value;
      HeaderKeeps(c, done, done.header, true, start, end);
    } else if k == HeadingText {
      HeadingStepKeeps(c, flushed, start, end);
    } else {
      SimpleIsBlock(c, k, i, end);
      var (node, next) := SimpleBlock(c, k, i).value;
      CommitBlockKeeps(c, flushed, node, [], start, next, end);
      var done := CommitBlock(flushed, node, [], next, end).value;
      HeaderKeeps(c, done, CloseAttributes(done.header), true, start, end);
    }
  }

  lemma NoTexts(c: Context)
    ensures AllLand(c, [])
  {
    hide Lands;
  }

  lemma EndInside(c: Context, st: State, start: nat, end: nat)
    requires Inv(c, st, start, end)
    ensures end <= LineCount(c) && start <= end && st.line <= end
  {
    hide Ready, Tiled, S.AllWellNested, Waiting, PendingFits, ParagraphFits, AllLand;
  }

  // ---------------------------------------------------------------- lines that wait, or stand alone

  /** Metadata lines join those that wait. */
  lemma PushMetadataKeeps(c: Context, p: Pending, kind: S.Kind, f: nat, j: nat)
    requires PendingFits(c, p, f) && j == f + |p.syntax| && j < LineCount(c)
    requires kind != S.CommentLine && WaitingLine(c, S.Leaf(kind, LineAt(c, j).full), j)
    ensures var r := PushMetadata(p, kind, LineAt(c, j).full);
      r.Ok? && r.value.syntax == p.syntax + [S.Leaf(kind, LineAt(c, j).full)] && PendingFits(c, r.value, f)
  {
    hide Ready, LineStart, WaitingLine, Waiting;
    var n := S.Leaf(kind, LineAt(c, j).full);
    LineSpan(c, j);
    WaitingStep(c, p.syntax, n, f);
    assert (p.syntax + [n])[|p.syntax + [n]| - 1] == n;
    if p.syntax != [] {
      PendingRange(c, p, f);
    }
  }

  lemma PushCommentKeeps(c: Context, p: Pending, f: nat, j: nat)
    requires PendingFits(c, p, f) && p.syntax != [] && j == f + |p.syntax| && j < LineCount(c)
    requires WaitingLine(c, S.Leaf(S.CommentLine, LineAt(c, j).full), j)
    ensures PendingFits(c, p.(syntax := p.syntax + [S.Leaf(S.CommentLine, LineAt(c, j).full)]), f)
  {
    hide Ready, LineStart, WaitingLine, Waiting, LineAt;
    var n := S.Leaf(S.CommentLine, LineAt(c, j).full);
    WaitingStep(c, p.syntax, n, f);
    assert Init(p.syntax + [n]) == p.syntax;
    assert Last(p.syntax + [n]) == n;
  }

  /** One more line waits. */
  lemma PendingKeeps(c: Context, st: State, p: Pending, start: nat, end: nat)
    requires Inv(c, st, start, end) && st.paragraph == [] && Quiet(st) && st.line < end
    requires PendingFits(c, p, Flushed(st)) && |p.syntax| == |st.pending.syntax| + 1
    ensures Inv(c, st.(pending := p, line := st.line + 1), start, end)
  {
    hide Ready, Tiled, PendingFits, S.AllWellNested, AllLand, LineCount;
    EndInside(c, st, start, end);
    NoParagraph(c, st.line + 1);
  }

  lemma MetadataWaits(c: Context, k: LineClass, st: State, end: nat)
    requires st.line < end <= LineCount(c) && k == ClassAt(c, st, end) && k in {TitleLine, Metadata, Anchor}
    ensures WaitingLine(c, S.Leaf(WaitingKind(k), LineAt(c, st.line).full), st.line)
  {
    hide Ready, ClassAt, Content, Is;
    ClassFacts(c, st, end);
  }

  lemma MetadataStepKeeps(c: Context, k: LineClass, st: State, start: nat, end: nat)
    requires st.line < end <= LineCount(c) && Inv(c, st, start, end) && st.paragraph == [] && Quiet(st)
    requires WaitingLine(c, S.Leaf(WaitingKind(k), LineAt(c, st.line).full), st.line)
    ensures var r := MetadataStep(c, k, st, end); r.Ok? && Inv(c, r.value, start, end)
  {
    hide Ready, Inv, PushMetadata, LineCount, LineAt, PendingFits, WaitingLine, MetadataStep;
    var kind, full := WaitingKind(k), LineAt(c, st.line).full;
    PendingOf(c, st, start, end);
    PushMetadataKeeps(c, st.pending, kind, Flushed(st), st.line);
    var pending := PushMetadata(st.pending, kind, full).value;
    PendingKeeps(c, st, pending, start, end);
    var moved := st.(pending := pending, line := st.line + 1);
    HeaderKeeps(c, moved, CloseAttributes(moved.header), st.sawContent || k == Anchor, start, end);
    MetadataStepIs(c, k, st, pending, end);
  }

  lemma MetadataStepIs(c: Context, k: LineClass, st: State, p: Pending, end: nat)
    requires st.line < end <= LineCount(c) && PushMetadata(st.pending, WaitingKind(k), LineAt(c, st.line).full) == Ok(p)
    ensures MetadataStep(c, k, st, end)
         == Ok(st.(pending := p, line := st.line + 1, sawContent := st.sawContent
           || k == Anchor, header := CloseAttributes(st.header)))
  {
    hide Ready, PushMetadata;
  }

  lemma PendingOf(c: Context, st: State, start: nat, end: nat)
    requires Inv(c, st, start, end) && st.paragraph == []
    ensures 0 <= Flushed(st) && Flushed(st) + |st.pending.syntax| == st.line && PendingFits(c, st.pending, Flushed(st))
    ensures st.pending.range.None? <==> st.pending == NOTHING
    ensures st.pending.range.None? <==> st.pending.syntax == []
  {
    hide Ready, Tiled, S.AllWellNested, AllLand, ParagraphFits, Waiting, Span;
  }

  lemma CommentStepKeeps(c: Context, st: State, start: nat, end: nat)
    requires st.line < end <= LineCount(c) && Inv(c, st, start, end) && st.paragraph == [] && Quiet(st)
    requires Is(c, st.line, CommentText)
    ensures var r := CommentStep(c, st, end); r.Ok? && Inv(c, r.value, start, end)
  {
    hide Ready, Inv, Content, LineCount, PendingFits, BlockOver, Is;
    var i := st.line;
    PendingOf(c, st, start, end);
    if st.pending.range.None? {
      LeafIsBlock(c, S.CommentLine, i, end);
      PlainBlockKeeps(c, st, S.Leaf(S.CommentLine, LineAt(c, i).full), start, i + 1, end);
    } else {
      PushCommentKeeps(c, st.pending, Flushed(st), i);
      PendingKeeps(c, st, st.pending.(syntax := st.pending.syntax + [S.Leaf(S.CommentLine, LineAt(c, i).full)]),
        start, end);
    }
  }

  lemma BlankStepKeeps(c: Context, st: State, start: nat, end: nat)
    requires st.line < end <= LineCount(c) && Inv(c, st, start, end) && st.paragraph == [] && Quiet(st)
    requires Is(c, st.line, BlankText)
    ensures var r := BlankStep(c, st, end); r.Ok? && Inv(c, r.value, start, end)
  {
    hide Ready, Inv, FlushOrphan, Content, LineCount, LineAt, Is, BlockOver;
    var i := st.line;
    FlushOrphanKeeps(c, st, start, end);
    var clear := FlushOrphan(st);
    LeafIsBlock(c, S.BlankLine, i, end);
    PlainBlockKeeps(c, clear, S.Leaf(S.BlankLine, LineAt(c, i).full), start, i + 1, end);
    var moved := clear.(line := i + 1, blocks := clear.blocks + [S.Leaf(S.BlankLine, LineAt(c, i).full)]);
    HeaderKeeps(c, moved, CloseAtBlank(moved.header), moved.sawContent, start, end);
  }

  /** The node of an attribute over one or more lines. */
  lemma AttributeIsBlock(c: Context, i: nat, end: nat)
    requires i < end == LineCount(c) && Is(c, i, AttributeText) && AttributeLine(Content(c, i))
    ensures var last := AttributeEnd(c, i);
      && Between(LineAt(c, i).full.start, LineAt(c, last).full.end) == Ok(Span(c, i, last + 1))
      && BlockOver(c, S.Leaf(S.DocumentAttribute, Span(c, i, last + 1)), i, last + 1, end)
         && S.AllWellNested(c.document.source, [])
  {
    hide Ready, Content, BlockOver, AttributeEnd, AttributeLine, S.AllWellNested, LineStart, Is;
    var last := AttributeEnd(c, i);
    LineSpan(c, i);
    LineSpan(c, last);
    LinesAscend(c, i, last + 1);
    LinesAreBlock(c, S.DocumentAttribute, i, last + 1, end);
  }

  lemma AttributeStepKeeps(c: Context, st: State, start: nat, end: nat)
    requires st.line < end == LineCount(c) && Inv(c, st, start, end) && st.paragraph == [] && Quiet(st)
    requires Is(c, st.line, AttributeText) && AttributeLine(Content(c, st.line)) && st.header.Some?
    ensures var r := AttributeStep(c, st, end); r.Ok? && Inv(c, r.value, start, end)
  {
    hide Ready, Inv, FlushOrphan, Content, BlockOver, AttributeEnd, AttributeLine, S.AllWellNested, Span, LineAt, Is;
    var i, last := st.line, AttributeEnd(c, st.line);
    FlushOrphanKeeps(c, st, start, end);
    var clear := FlushOrphan(st);
    AttributeIsBlock(c, i, end);
    var n := S.Leaf(S.DocumentAttribute, Span(c, i, last + 1));
    PlainBlockKeeps(c, clear, n, start, last + 1, end);
    var moved := clear.(line := last + 1, blocks := clear.blocks + [n]);
    HeaderKeeps(c, moved, AttributeStep(c, st, end).value.header, moved.sawContent, start, end);
  }

  /** A line that waits or stands alone, after the paragraph before it is closed. */
  lemma WaitStepKeeps(c: Context, k: LineClass, st: State, start: nat, end: nat)
    requires st.line < end <= LineCount(c) && Inv(c, st, start, end) && (Quiet(st) || k == BlankText)
    requires k == ClassAt(c, st, end) && k in {CommentText, BlankText, TitleLine, Metadata, Anchor, AttributeText}
    requires k == AttributeText ==> AttributeLine(Content(c, st.line)) && st.header.Some? && end == LineCount(c)
    ensures var r := WaitStep(c, k, st, end); r.Ok? && Inv(c, r.value, start, end)
  {
    hide Ready, Inv, ClassAt, FlushParagraph, Content, LineCount, LineAt, CommentStep, BlankStep, AttributeStep,
      MetadataStep, AttributeLine, AllBlank, Is, WaitingLine;
    ClassFacts(c, st, end);
    var stopped := if k in {CommentText, BlankText} then st.(header := StopAuthor(st.header)) else st;
    HeaderKeeps(c, st, stopped.header, st.sawContent, start, end);
    FlushParagraphKeeps(c, stopped, start, end);
    var flushed := FlushParagraph(c, stopped).value;
    if k == CommentText {
      CommentStepKeeps(c, flushed, start, end);
    } else if k == BlankText {
      BlankStepKeeps(c, flushed, start, end);
    } else if k == AttributeText {
      AttributeStepKeeps(c, flushed, start, end);
    } else {
      MetadataWaits(c, k, st, end);
      MetadataStepKeeps(c, k, flushed, start, end);
    }
  }

  /** A line of a paragraph waits in it. */
  lemma ParagraphStepKeeps(c: Context, st: State, start: nat, end: nat)
    requires st.line < end <= LineCount(c) && Inv(c, st, start, end) && Quiet(st) && ParagraphLine(c, st.line)
    ensures Inv(c, BodySeen(st.(paragraph := st.paragraph + [LineAt(c, st.line)])).(line := st.line + 1), start, end)
  {
    hide Ready, Tiled, PendingFits, S.AllWellNested, AllLand, ParagraphLine;
    var p := ParagraphStart(st);
    assert c.document.lines[p..st.line + 1] == c.document.lines[p..st.line] + [LineAt(c, st.line)];
  }

  /** Author and revision lines follow directly on blocks. */
  lemma HeaderLineKeeps(c: Context, st: State, kind: S.Kind, h: Header, start: nat, end: nat)
    requires st.line < end <= LineCount(c) && Inv(c, st, start, end)
    requires st.header.Some? && (st.header.value.author || st.header.value.revision)
    requires HeaderText(Content(c, st.line)) && kind in {S.AuthorLine, S.RevisionLine}
    requires kind == S.AuthorLine ==> c.grammar.author(Content(c, st.line))
    ensures var r := Commit(st.(header := Some(h), blocks := st.blocks + [S.Leaf(kind, LineAt(c, st.line).full)]),
      st.line + 1, end);
      r.Ok? && Inv(c, r.value, start, end)
  {
    hide Ready, Inv, Content, BlockOver, HeaderText, LineCount, PendingFits;
    var n := S.Leaf(kind, LineAt(c, st.line).full);
    NothingOpen(c, st, start, end);
    LeafIsBlock(c, kind, st.line, end);
    PlainBlockKeeps(c, st, n, start, st.line + 1, end);
    HeaderKeeps(c, st.(line := st.line + 1, blocks := st.blocks + [n]), Some(h), st.sawContent, start, end);
  }

  lemma NothingOpen(c: Context, st: State, start: nat, end: nat)
    requires Inv(c, st, start, end) && st.header.Some? && (st.header.value.author || st.header.value.revision)
    ensures st.paragraph == [] && st.pending == NOTHING
  {
    hide Ready, Tiled, S.AllWellNested, AllLand, ParagraphFits, Waiting, Span;
  }
}
