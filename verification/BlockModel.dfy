/** What block parsing works on: the lines of a document, the inline content of its texts,
    and what it means for block nodes to cover lines. */
module BlockModel {
  import opened Text
  import opened Source
  import opened BlockGrammar
  import opened InlineModel
  import P = InlineParser
  import N = InlineNodes
  import S = Syntax

  datatype RawContext = Context(document: Document, grammar: Grammar, words: WordTable, config: Config,
      maxListDepth: nat, maxBlockDepth: nat)

  ghost predicate Ready(c: RawContext) {
    DocumentOk(c.document) && |c.document.source| < MISSING
  }

  const EMPTY := Context(Document([], [MakeLine(0, 0, 0, NoEnding)], []),
                         Grammar((x: Text) => false, (x: Text) => false, (x: Text) => false),
                         (x: Text) => false, Config(0, 0), 0, 0)

  /** A document inside the 32-bit offset domain, with the grammars and limits to parse it. */
  type Context = c: RawContext | Ready(c) witness EMPTY

  datatype Failure =
    | DepthLimit(actual: nat)
    /** A defensive check of the parser: a reversed range, a cursor that does not advance,
        a text cut inside a character. */
    | InvariantBroken

  datatype Result<+T> = Ok(value: T) | Err(failure: Failure) {
    predicate IsFailure() { Err? }

    function PropagateFailure<U>(): Result<U>
      requires Err?
    {
      Err(failure)
    }

    function Extract(): T
      requires Ok?
    {
      value
    }
  }

  // ---------------------------------------------------------------- lines

  function LineCount(c: Context): nat { |c.document.lines| }

  function LineAt(c: Context, i: nat): Line
    requires i < LineCount(c)
  {
    c.document.lines[i]
  }

  function Content(c: Context, i: nat): Text
    requires i < LineCount(c)
  {
    match TextOf(c.document.source, LineAt(c, i).content) case Some(t) => t case None => []
  }

  /** The offset at which line `i` starts; the end of the text for the line count. */
  function LineStart(c: Context, i: nat): nat
    requires i <= LineCount(c)
  {
    if i < LineCount(c) then LineAt(c, i).full.start else |c.document.source|
  }

  lemma SourceIsValid(c: Context)
    ensures Valid(c.document.source)
  {
    hide Valid;
  }

  lemma LineFacts(c: Context, i: nat)
    requires i < LineCount(c)
    ensures var v, l := c.document.source, LineAt(c, i);
      && LineOk(v, l) && Boundary(v, l.full.start) && Boundary(v, l.content.end) && Boundary(v, l.full.end)
      && l.full.start == LineStart(c, i) && l.full.end == LineStart(c, i + 1)
      && Content(c, i) == v[l.content.start..l.content.end] && Valid(Content(c, i))
    ensures i + 1 < LineCount(c) ==> LineStart(c, i) < LineStart(c, i + 1)
  {
    LinesAt(c.document.source, c.document.lines, 0, i);
    SliceIsValid(c.document.source, LineAt(c, i).content.start, LineAt(c, i).content.end);
  }

  lemma {:induction false} LinesAscend(c: Context, i: nat, j: nat)
    requires i <= j <= LineCount(c)
    ensures LineStart(c, i) <= LineStart(c, j) <= |c.document.source|
    ensures Boundary(c.document.source, LineStart(c, i)) && Boundary(c.document.source, LineStart(c, j))
    decreases j - i
  {
    hide Ready, Content;
    if i < LineCount(c) {
      LineFacts(c, i);
      if i < j {
        LinesAscend(c, i + 1, j);
      }
    }
  }

  /** The range of lines `[a, b)`. */
  function Span(c: Context, a: nat, b: nat): TextRange
    requires a <= b <= LineCount(c)
  {
    hide Ready;
    LinesAscend(c, a, b);
    Range(LineStart(c, a), LineStart(c, b))
  }

  lemma SpanIsText(c: Context, a: nat, b: nat)
    requires a <= b <= LineCount(c)
    ensures TextOf(c.document.source, Span(c, a, b)).Some?
  {
    hide Ready;
    LinesAscend(c, a, b);
  }

  // ---------------------------------------------------------------- inline content

  function SegmentOf(c: Context, r: TextRange): (v: Segment)
    requires TextOf(c.document.source, r).Some?
    ensures |v| == r.end - r.start && N.Located(c.document.source, v, r.start)
  {
    SliceIsValid(c.document.source, r.start, r.end);
    c.document.source[r.start..r.end]
  }

  /** The parsed inlines of a range of the source. */
  function Inlines(c: Context, r: TextRange): seq<Inline> {
    hide Ready, N.Located;
    if TextOf(c.document.source, r).None? then []
    else P.ParsedSegment(c.words, SegmentOf(c, r), r.start, c.config, 0).inlines
  }

  lemma InlinesTile(c: Context, r: TextRange)
    requires TextOf(c.document.source, r).Some?
    ensures Tiles(Inlines(c, r), SegmentOf(c, r), r.start, 0, r.end - r.start)
    ensures N.Rowed(Inlines(c, r), r.start, r.end) && N.Landed(c.document.source, Inlines(c, r))
  {
    hide Ready, Tiles, P.ParsedSegment, N.Located, N.Landed, N.Rowed, SegmentOf, TextOf;
    N.TilesAreRowed(c.document.source, Inlines(c, r), SegmentOf(c, r), r.start, 0, r.end - r.start);
  }

  lemma BrokenInlines(c: Context, r: TextRange)
    requires TextOf(c.document.source, r).Some?
    ensures N.Rowed(N.SplitHardBreaks(Inlines(c, r)), r.start, r.end)
    ensures N.Landed(c.document.source, N.SplitHardBreaks(Inlines(c, r))) <==> Lands(c, r)
  {
    hide Ready, Tiles, N.Located, N.Landed, N.Rowed, SegmentOf, Inlines, TextOf, N.AllBreaksLand, N.SplitHardBreaks;
    InlinesTile(c, r);
    N.SplitLands(c.document.source, Inlines(c, r), SegmentOf(c, r), r.start, 0, r.end - r.start);
  }

  /** Syntax nodes of inline content in which hard breaks are left as text. */
  function PlainNodes(c: Context, r: TextRange): seq<S.Node> {
    hide Ready, N.Landed, N.Rowed, Tiles, Inlines, TextOf;
    if TextOf(c.document.source, r).None? then []
    else
      InlinesTile(c, r);
      N.Nodes(Inlines(c, r), r.start, r.end)
  }

  /** Syntax nodes of inline content in which hard breaks are split off. */
  function BrokenNodes(c: Context, r: TextRange): seq<S.Node> {
    hide Ready, N.Landed, N.Rowed, Inlines, TextOf, N.SplitHardBreaks, Lands;
    if TextOf(c.document.source, r).None? then []
    else
      BrokenInlines(c, r);
      N.Nodes(N.SplitHardBreaks(Inlines(c, r)), r.start, r.end)
  }

  /** Whether every hard break in the text of a range can be cut off on a character boundary. */
  predicate Lands(c: Context, r: TextRange) {
    N.AllBreaksLand(Inlines(c, r))
  }

  ghost predicate AllLand(c: Context, texts: seq<TextRange>) {
    forall r :: r in texts ==> Lands(c, r)
  }

  lemma PlainNodesRow(c: Context, r: TextRange)
    requires TextOf(c.document.source, r).Some?
    ensures N.Row(PlainNodes(c, r), r.start, r.end) && S.AllWellNested(c.document.source, PlainNodes(c, r))
  {
    hide Ready, N.Landed, N.Rowed, Tiles, Inlines, TextOf, N.Row, S.AllWellNested, N.Nodes;
    InlinesTile(c, r);
    N.NodesRow(c.document.source, Inlines(c, r), r.start, r.end);
  }

  lemma BrokenNodesRow(c: Context, r: TextRange)
    requires TextOf(c.document.source, r).Some?
    ensures N.Row(BrokenNodes(c, r), r.start, r.end)
    ensures S.AllWellNested(c.document.source, BrokenNodes(c, r)) <==> Lands(c, r)
  {
    hide Ready, N.Landed, N.Rowed, Inlines, TextOf, N.Row, S.AllWellNested, N.Nodes, N.SplitHardBreaks, Lands;
    BrokenInlines(c, r);
    N.NodesRow(c.document.source, N.SplitHardBreaks(Inlines(c, r)), r.start, r.end);
  }

  // ---------------------------------------------------------------- block nodes

  /** A block node over lines `[a, b)` whose annotations stand in a row inside it. */
  ghost predicate NodeOver(c: Context, n: S.Node, a: nat, b: nat) {
    && a < b <= LineCount(c)
    && n.range == Span(c, a, b) && S.IsBlock(n.kind)
    && N.Row(n.children, n.range.start, n.range.end)
  }

  lemma NodeOverNests(c: Context, n: S.Node, a: nat, b: nat)
    requires NodeOver(c, n, a, b)
    ensures S.NoTokens(n)
    ensures S.WellNested(c.document.source, n) <==> S.AllWellNested(c.document.source, n.children)
  {
    hide Ready, S.AllWellNested, S.NoTokensAll, S.Chained;
    SpanIsText(c, a, b);
    N.RowIsApart(n.children, n.range.start);
  }
}
