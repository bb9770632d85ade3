/** What every step of the block parser keeps: the blocks so far, the waiting metadata and
    the open paragraph cover the consumed lines, one after the other. */
module BlockTiling {
  import opened Text
  import opened Source
  import opened BlockGrammar
  import opened BlockModel
  import opened BlockState
  import opened Delimiter
  import opened ListLines
  import N = InlineNodes
  import S = Syntax

  function Init<T>(s: seq<T>): seq<T>
    requires s != []
  {
    s[..|s| - 1]
  }

  function Last<T>(s: seq<T>): T
    requires s != []
  {
    s[|s| - 1]
  }

  // ---------------------------------------------------------------- which lines make which block

  /** What a line is by itself: the first of the forms that it has. */
  ghost predicate Is(c: Context, j: nat, k: LineClass)
    requires j < LineCount(c)
  {
    FirstForm(c.grammar, Content(c, j), None, k)
  }

  /** A line that has no form at all, apart from that of a document attribute. */
  ghost predicate ParagraphLine(c: Context, j: nat)
    requires j < LineCount(c)
  {
    Is(c, j, ParagraphText)
  }

  /** A paragraph goes on up to a line that is none of its own; a document attribute may be one. */
  ghost predicate ParagraphEnds(c: Context, b: nat, end: nat) {
    b < end && b < LineCount(c) ==> !ParagraphLine(c, b) || AttributeLine(Content(c, b))
  }

  /** A line that waits for a block, or a comment between such lines. */
  ghost predicate WaitingLine(c: Context, n: S.Node, j: nat)
    requires j < LineCount(c)
  {
    && n == S.Leaf(n.kind, LineAt(c, j).full)
    && match n.kind
       case BlockTitle => Is(c, j, TitleLine)
       case BlockAnchor => Is(c, j, Anchor)
       case BlockAttribute => Is(c, j, Metadata)
       case CommentLine => Is(c, j, CommentText)
       case _ => false
  }

  ghost predicate Waiting(c: Context, s: seq<S.Node>, a: nat) {
    a + |s| <= LineCount(c) && forall i :: 0 <= i < |s| ==> WaitingLine(c, s[i], a + i)
  }

  /** As many equals signs as the level, a space, and text. */
  predicate HeadingLine(t: Text, level: nat) {
    && level < |t| && (forall i :: 0 <= i < level ==> t[i] == '=') && t[level] == ' '
    && exists i :: level < i < |t| && !Blank(t[i])
  }

  /** Where the body of a paragraph over lines `[m, b)` lies: behind its admonition label, up to the end
      of its last line. */
  ghost predicate ParagraphBody(c: Context, m: nat, b: nat, r: TextRange)
    requires m < b <= LineCount(c)
  {
    var from, end := LineAt(c, m).content.start, LineAt(c, b - 1).content.end;
    && from <= end && TextOf(c.document.source, Range(from, end)).Some?
    && r.start == from + AdmonitionOffset(TextOf(c.document.source, Range(from, end)).value) && r.end == end
  }

  /** A marker, and the inlines of the heading text. */
  ghost predicate HeadingHolds(c: Context, s: seq<S.Node>, m: nat)
    requires m < LineCount(c)
  {
    var h, at := HeadingOf(Content(c, m)), LineAt(c, m).content.start;
    s == [S.Leaf(S.HeadingMarker, Range(at, at + h.marker))] + PlainNodes(c, Range(at + h.text, at + h.textEnd))
  }

  /** Nothing but the delimiters. */
  predicate Verbatim(c: Context, s: seq<S.Node>, m: nat, end: nat) {
    && m < end <= LineCount(c)
    && var body := BodyOf(c, m, Content(c, m), end);
      s == [Opening(LineAt(c, m).content, body.closed)]
        + if body.closed then [S.Leaf(S.BlockDelimiter, LineAt(c, body.contentEnd).content)] else []
  }

  /** The style line and the delimiter below it. */
  predicate MathHolds(c: Context, s: seq<S.Node>, m: nat, end: nat) {
    && m + 1 < end <= LineCount(c)
    && s == [S.Leaf(S.BlockAttribute, LineAt(c, m).content),
             Opening(LineAt(c, m + 1).content, BodyOf(c, m + 1, "++++", end).closed)]
  }

  /** What the node of a block over lines `[m, b)` holds besides the lines that wait for it. The bodies
      of compound blocks are described below. */
  ghost predicate Holds(c: Context, k: S.Kind, s: seq<S.Node>, m: nat, b: nat, end: nat)
    requires m < b <= LineCount(c)
  {
    match k
    case Paragraph => exists r: TextRange :: ParagraphBody(c, m, b, r) && s == BrokenNodes(c, r)
    case Heading => HeadingHolds(c, s, m)
    case MalformedHeading => HeadingHolds(c, s, m)
    case DocumentTitle => HeadingHolds(c, s, m)
    case Unsupported => s == [S.Leaf(S.Unknown, Span(c, m, b))]
    case LiteralBlock => if DelimiterOf(Content(c, m)).Some? then Verbatim(c, s, m, end) else s == []
    case DelimitedBlock =>
      DelimiterOf(Content(c, m)).Some? && !Compound(DelimiterOf(Content(c, m)).value) ==> Verbatim(c, s, m, end)
    case MathBlock => MathHolds(c, s, m, end)
    case List => ListHolds(c, s, m, b, end)
    case _ => s == []
  }

  /** Whether lines `[m, b)` are the lines of a block of kind `k`, when lines are parsed up to `end`. */
  ghost predicate MadeOf(c: Context, k: S.Kind, m: nat, b: nat, end: nat)
    requires m < b <= LineCount(c)
  {
    var first := Content(c, m);
    match k
    case Paragraph => (forall j :: m <= j < b ==> ParagraphLine(c, j)) && ParagraphEnds(c, b, end)
    case ThematicBreak => b == m + 1 && first == "'''"
    case PageBreak => b == m + 1 && first == "<<<"
    case LiteralBlock =>
      || (Is(c, m, LiteralParagraph) && (forall j :: m <= j < b ==> StartsBlank(Content(c, j)))
          && (b < LineCount(c) ==> !StartsBlank(Content(c, b))))
      || (DelimiterOf(first) == Some(LiteralText) && m < end <= LineCount(c) && b == BodyOf(c, m, first, end).next)
    case DelimitedBlock => DelimiterOf(first).Some? && m < end <= LineCount(c) && b == BodyOf(c, m, first, end).next
    case MathBlock =>
      && BlockAttributes(first) && c.grammar.math(first) && m + 1 < end <= LineCount(c)
      && Content(c, m + 1) == "++++" && b == BodyOf(c, m + 1, "++++", end).next
    case Heading => b == m + 1 && Is(c, m, HeadingText) && exists level :: 2 <= level <= 6 && HeadingLine(first, level)
    case MalformedHeading =>
      b == m + 1 && Is(c, m, HeadingText) && forall level :: 2 <= level <= 6 ==> !HeadingLine(first, level)
    case DocumentTitle => b == m + 1 && Is(c, m, HeadingText) && HeadingLine(first, 1)
    case List => Is(c, m, ListText) && ListEnds(c, b, end)
    case Unsupported => b == m + 1 && (Is(c, m, Directive) || Is(c, m, UnsupportedText))
    case AuthorLine => b == m + 1 && HeaderText(first) && c.grammar.author(first)
    case RevisionLine => b == m + 1 && HeaderText(first)
    case CommentLine => b == m + 1 && Is(c, m, CommentText)
    case BlankLine => b == m + 1 && Is(c, m, BlankText)
    case DocumentAttribute => Is(c, m, AttributeText) && b == AttributeEnd(c, m) + 1
    case _ => false
  }

  /** The first `m - a` lines wait for the block that the others make. */
  ghost predicate Opens(c: Context, n: S.Node, a: nat, m: nat, b: nat, end: nat)
    decreases n, 2
  {
    && a <= m < b <= LineCount(c)
    && m - a <= |n.children| && Waiting(c, n.children[..m - a], a)
    && MadeOf(c, n.kind, m, b, end) && Holds(c, n.kind, n.children[m - a..], m, b, end)
    && (n.kind == S.DelimitedBlock && Compound(DelimiterOf(Content(c, m)).value) ==>
          Encloses(c, n, m - a, m, BodyOf(c, m, Content(c, m), end)))
  }

  /** The nodes after the first `d` are the opening delimiter on line `m`, the blocks of the
      body and, when there is one, the closing delimiter. */
  ghost predicate Encloses(c: Context, n: S.Node, d: nat, m: nat, body: Body)
    requires d <= |n.children| && m < LineCount(c)
    decreases n, 1
  {
    && d < |n.children| && n.children[d] == Opening(LineAt(c, m).content, body.closed)
    && var inner := n.children[d + 1..];
      if body.closed then
        && body.contentEnd < LineCount(c)
        && inner != [] && Last(inner) == S.Leaf(S.BlockDelimiter, LineAt(c, body.contentEnd).content)
        && Tiled(c, Init(inner), m + 1, body.contentEnd, body.contentEnd)
      else Tiled(c, inner, m + 1, body.contentEnd, body.contentEnd)
  }

  /** Metadata lines that no block follows. */
  ghost predicate Orphan(c: Context, n: S.Node, a: nat, b: nat) {
    && a < b <= LineCount(c) && n.kind == S.Unsupported
    && exists s :: |s| == b - a && Waiting(c, s, a) && n.children == [S.Node(S.Unknown, Span(c, a, b), s)]
  }

  /** A block over lines `[a, b)`, made of the lines it should be. */
  ghost predicate Placed(c: Context, n: S.Node, a: nat, b: nat, end: nat)
    decreases n, 3
  {
    NodeOver(c, n, a, b) && (Orphan(c, n, a, b) || (exists m :: Opens(c, n, a, m, b, end)))
  }

  /** Blocks that follow each other over lines `[a, b)`. */
  ghost predicate Tiled(c: Context, s: seq<S.Node>, a: nat, b: nat, end: nat)
    decreases s
  {
    if s == [] then a == b
    else exists k :: a <= k < b && Tiled(c, Init(s), a, k, end) && Placed(c, Last(s), k, b, end)
  }

  lemma TiledAppend(c: Context, s: seq<S.Node>, n: S.Node, a: nat, k: nat, b: nat, end: nat)
    requires a <= k < b && Tiled(c, s, a, k, end) && Placed(c, n, k, b, end)
    ensures Tiled(c, s + [n], a, b, end)
  {
    hide Placed;
    assert Init(s + [n]) == s;
  }

  /** Taking the last block apart again. */
  lemma TiledLast(c: Context, s: seq<S.Node>, a: nat, b: nat, end: nat) returns (k: nat)
    requires s != [] && Tiled(c, s, a, b, end)
    ensures a <= k < b && Tiled(c, Init(s), a, k, end) && Placed(c, Last(s), k, b, end)
  {
    hide Placed;
    k :| a <= k < b && Tiled(c, Init(s), a, k, end) && Placed(c, Last(s), k, b, end);
  }

  lemma {:induction false} TiledOrder(c: Context, s: seq<S.Node>, a: nat, b: nat, end: nat)
    requires Tiled(c, s, a, b, end)
    ensures a <= b && (a <= LineCount(c) ==> b <= LineCount(c))
    decreases |s|
  {
    hide Opens, Orphan;
    if s != [] {
      var k := TiledLast(c, s, a, b, end);
      TiledOrder(c, Init(s), a, k, end);
    }
  }

  /** Tiled blocks stand in a row. */
  lemma {:induction false} TiledRow(c: Context, s: seq<S.Node>, a: nat, b: nat, end: nat)
    requires Tiled(c, s, a, b, end) && a <= b <= LineCount(c)
    ensures N.Row(s, Span(c, a, b).start, Span(c, a, b).end)
    decreases |s|
  {
    hide Ready, Opens, Orphan, N.Row, LineStart, NodeOver, Tiled;
    if s == [] {
      assert a == b by { TiledNothing(c, a, b, end); }
      N.NoNodes(c.document.source, Span(c, a, b).start);
    } else {
      var k := TiledLast(c, s, a, b, end);
      var init, n := Init(s), Last(s);
      TiledRow(c, init, a, k, end);
      NodeOverNests(c, n, k, b);
      N.OneNode(c.document.source, n);
      NodeOverRange(c, n, k, b);
      N.RowAppend(init, [n], Span(c, a, b).start, Span(c, a, k).end, Span(c, a, b).end);
      assert s == init + [n];
    }
  }

  lemma TiledNothing(c: Context, a: nat, b: nat, end: nat)
    ensures Tiled(c, [], a, b, end) <==> a == b
  {
  }

  lemma NodeOverRange(c: Context, n: S.Node, a: nat, b: nat)
    requires NodeOver(c, n, a, b)
    ensures a < b <= LineCount(c) && n.range == Span(c, a, b) && S.IsBlock(n.kind)
  {
  }

  lemma {:induction false} TiledMembers(c: Context, s: seq<S.Node>, a: nat, b: nat, end: nat)
    requires Tiled(c, s, a, b, end)
    ensures S.NoTokensAll(s)
    decreases |s|
  {
    hide Ready, Opens, Orphan, NodeOver, S.NoTokens;
    if s != [] {
      var k := TiledLast(c, s, a, b, end);
      var init, n := Init(s), Last(s);
      TiledMembers(c, init, a, k, end);
      NodeOverNests(c, n, k, b);
      S.NoTokensMembers(init);
      S.NoTokensMembers(s);
      assert s == init + [n];
    }
  }

  // ---------------------------------------------------------------- waiting lines

  /** Up to and with the last waiting node that is no comment. */
  function MetadataCount(s: seq<S.Node>): (r: nat)
    ensures r <= |s|
  {
    if s == [] then 0 else if s[|s| - 1].kind == S.CommentLine then MetadataCount(s[..|s| - 1]) else |s|
  }

  ghost predicate PendingFits(c: Context, p: Pending, a: nat) {
    && Waiting(c, p.syntax, a)
    && (p.syntax == [] <==> MetadataCount(p.syntax) == 0)
    && p.range == if p.syntax == [] then None else Some(Span(c, a, a + MetadataCount(p.syntax)))
  }

  lemma WaitingStep(c: Context, s: seq<S.Node>, n: S.Node, a: nat)
    requires Waiting(c, s, a) && a + |s| < LineCount(c) && WaitingLine(c, n, a + |s|)
    ensures Waiting(c, s + [n], a)
  {
    hide WaitingLine;
  }

  lemma WaitingLast(c: Context, s: seq<S.Node>, a: nat)
    requires Waiting(c, s, a) && s != []
    ensures Waiting(c, Init(s), a)
    ensures var n, j := Last(s), a + |s| - 1;
      j < LineCount(c) && n == S.Leaf(n.kind, Span(c, j, j + 1)) && !n.kind.TokenLeaf?
  {
    hide Ready;
    assert WaitingLine(c, s[|s| - 1], a + |s| - 1);
    LineSpan(c, a + |s| - 1);
  }

  /** The leaves of waiting lines stand in a row and are well nested. */
  lemma {:induction false} WaitingRow(c: Context, s: seq<S.Node>, a: nat)
    requires Waiting(c, s, a)
    ensures a + |s| <= LineCount(c)
    ensures N.Row(s, Span(c, a, a + |s|).start, Span(c, a, a + |s|).end) && S.AllWellNested(c.document.source, s)
    decreases |s|
  {
    hide Ready, LineStart, N.Row, S.AllWellNested, WaitingLine, LineAt, TextOf;
    var v := c.document.source;
    if s == [] {
      N.NoNodes(v, Span(c, a, a).start);
    } else {
      var init, n, j := Init(s), Last(s), a + |s| - 1;
      WaitingLast(c, s, a);
      WaitingRow(c, init, a);
      SpanIsText(c, j, j + 1);
      N.LeafRow(v, n.kind, Span(c, j, j + 1));
      N.RowAppend(init, [n], Span(c, a, a + |s|).start, Span(c, a, j).end, Span(c, a, a + |s|).end);
      N.WellNestedAppend(v, init, [n]);
      assert s == init + [n];
    }
  }

  lemma LineSpan(c: Context, j: nat)
    requires j < LineCount(c)
    ensures LineAt(c, j).full == Span(c, j, j + 1)
  {
    hide Ready, LineOk, Content;
    LineFacts(c, j);
  }

  // ---------------------------------------------------------------- the invariant

  ghost predicate ParagraphFits(c: Context, s: seq<Line>, p: nat) {
    && p + |s| <= LineCount(c)
    && s == c.document.lines[p..p + |s|]
    && forall j :: p <= j < p + |s| ==> ParagraphLine(c, j)
  }

  /** Where the open paragraph starts. */
  function ParagraphStart(st: State): int { st.line - |st.paragraph| }

  /** Where the waiting lines start: all lines before are in blocks. */
  function Flushed(st: State): int { st.line - |st.paragraph| - |st.pending.syntax| }

  /** Between steps: lines `[start, Flushed)` are in blocks, lines up to the paragraph wait,
      the others are paragraph text; a line that may be an author or a revision follows
      directly on blocks; blocks are well nested as soon as all split texts land. */
  ghost predicate Inv(c: Context, st: State, start: nat, end: nat) {
    && start <= Flushed(st) && st.line <= end <= LineCount(c)
    && Tiled(c, st.blocks, start, Flushed(st), end)
    && PendingFits(c, st.pending, Flushed(st))
    && ParagraphFits(c, st.paragraph, ParagraphStart(st))
    && (st.header.Some? && (st.header.value.author || st.header.value.revision) ==>
       st.paragraph == [] && st.pending.syntax == [])
    && (S.AllWellNested(c.document.source, st.blocks) <==> AllLand(c, st.texts))
  }

  /** What a line after the end of nested lines must be like: not indented, so that an
      indented paragraph stops before it. */
  ghost predicate StopsAt(c: Context, end: nat) {
    end <= LineCount(c) && (end < LineCount(c) ==> !StartsBlank(Content(c, end)))
  }
}
