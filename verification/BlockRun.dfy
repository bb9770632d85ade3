/** The block parser as it runs: an object whose fields the line loop updates. */
module BlockRun {
  import opened Text
  import opened Source
  import opened BlockGrammar
  import opened BlockModel
  import opened BlockState
  import opened BlockTiling
  import opened BlockSteps
  import opened BlockLines
  import opened BlockParser
  import opened BlockSafety
  import opened ListNodes
  import opened BlockScans
  import opened Delimiter
  import M = InlineModel
  import P = InlineParser
  import N = InlineNodes
  import ListTree
  import S = Syntax

  datatype Done = Done

  /** What a method that may fail does to the state: what the state function says. */
  ghost predicate Follows(r: Result<Done>, expected: Result<State>, now: State) {
    match expected
    case Ok(s) => r.Ok? && now == s
    case Err(e) => r == Err(e)
  }

  class BlockParserState {
    var line: nat
    var header: Option<Header>
    var pending: Pending
    var paragraph: seq<Line>
    var sawContent: bool
    var blocks: seq<S.Node>
    var texts: seq<TextRange>

    ghost function View(): State
      reads this
    {
      State(line, header, pending, paragraph, sawContent, blocks, texts)
    }

    constructor (start: nat, root: bool)
      ensures View() == Initial(start, root)
    {
      line, pending, paragraph, sawContent, blocks, texts := start, NOTHING, [], false, [], [];
      header := if root then Some(Header(true, false, false, false)) else None;
    }

    method Advance(next: nat, end: nat) returns (r: Result<Done>)
      modifies this`line
      ensures Follows(r, Commit(old(View()), next, end), View())
    {
      if next <= line || end < next {
        return Err(InvariantBroken);
      }
      line := next;
      r := Ok(Done);
    }

    method AttachPendingMetadata() returns (r: Result<Done>)
      modifies this`pending, this`blocks
      ensures Follows(r, AttachPending(old(View())), View())
    {
      if pending.range.None? {
        return Ok(Done);
      }
      var metadata := pending;
      pending := NOTHING;
      if blocks == [] {
        return Ok(Done);
      }
      var last, start := blocks[|blocks| - 1], metadata.range.value.start;
      if last.range.end < start {
        return Err(InvariantBroken);
      }
      var node := S.Node(last.kind, Range(start, last.range.end), metadata.syntax + last.children);
      blocks := blocks[..|blocks| - 1] + [node];
      r := Ok(Done);
    }

    method FlushOrphanMetadata()
      modifies this`pending, this`blocks
      ensures View() == FlushOrphan(old(View()))
    {
      if pending.range.None? {
        return;
      }
      var metadata := pending;
      pending := NOTHING;
      var range := metadata.range.value;
      var trailing := FindTrailing(metadata.syntax, range.end);
      var unknown := S.Node(S.Unknown, range, metadata.syntax[..trailing]);
      blocks := blocks + [S.Node(S.Unsupported, range, [unknown])];
      blocks := blocks + metadata.syntax[trailing..];
    }

    /** Adds a recognised block and the lines it takes, then the metadata that waited for it. */
    method CommitRecognizedBlock(node: S.Node, split: seq<TextRange>, next: nat, end: nat) returns (r: Result<Done>)
      modifies this
      ensures Follows(r, CommitBlock(old(View()), node, split, next, end), View())
    {
      hide AttachPending;
      var moved := Advance(next, end);
      if moved.Err? {
        return moved;
      }
      blocks := blocks + [node];
      texts := texts + split;
      r := AttachPendingMetadata();
    }

    method PushPending(kind: S.Kind, range: TextRange) returns (r: Result<Done>)
      modifies this`pending
      ensures var p := PushMetadata(old(pending), kind, range);
        if p.Ok? then r.Ok? && pending == p.value else r == Err(p.failure)
    {
      var extended := range;
      if pending.range.Some? {
        if range.end < pending.range.value.start {
          return Err(InvariantBroken);
        }
        extended := Range(pending.range.value.start, range.end);
      }
      pending := Pending(Some(extended), pending.syntax + [S.Leaf(kind, range)]);
      r := Ok(Done);
    }

    /** Joins the lines of the paragraph and parses the text they make. */
    method CloseParagraph(c: Context) returns (r: Result<Done>)
      requires |paragraph| <= line && ParagraphFits(c, paragraph, line - |paragraph|)
      modifies this
      ensures Follows(r, FlushParagraph(c, old(View())), View())
    {
      hide Ready, AttachPending, ParagraphNode, ParagraphFits;
      if paragraph == [] {
        return Ok(Done);
      }
      var parsed := ParseParagraph(c, paragraph, line - |paragraph|);
      if parsed.Err? {
        return Err(parsed.failure);
      }
      var (node, body) := parsed.value;
      paragraph := [];
      blocks := blocks + [node];
      texts := texts + [body];
      r := AttachPendingMetadata();
    }
  }

  // ---------------------------------------------------------------- paragraphs

  function EndingText(kind: LineEnding): Text {
    match kind case Lf => "\n" case CrLf => "\r\n" case NoEnding => ""
  }

  /** The source from an offset up to a line, then the content of the line, then its ending. */
  lemma JoinLine(c: Context, from: nat, j: nat)
    requires j < LineCount(c) && from <= LineStart(c, j)
    ensures var v, l := c.document.source, LineAt(c, j);
      && LineStart(c, j) == l.content.start && l.content.end <= l.full.end == LineStart(c, j + 1) <= |v|
      && v[from..l.content.start] + Content(c, j) == v[from..l.content.end]
      && v[from..l.content.end] + EndingText(l.kind) == v[from..l.full.end]
  {
    hide Ready, LineStart;
    LineFacts(c, j);
    var v, l := c.document.source, LineAt(c, j);
    assert v[from..l.content.end] == v[from..l.content.start] + v[l.content.start..l.content.end];
    assert v[from..l.full.end] == v[from..l.content.end] + v[l.content.end..l.full.end];
  }

  lemma ParagraphHasText(c: Context, j: nat)
    requires j < LineCount(c) && ParagraphLine(c, j)
    ensures LineAt(c, j).content.start < LineAt(c, j).content.end
  {
    hide Ready;
    LineFacts(c, j);
    assert !HasFormOf(c.grammar, Content(c, j), None, BlankText);
  }

  /** Of the lines of a paragraph all but the last end before its content does. */
  lemma EndsBefore(c: Context, j: nat, b: nat)
    requires j < b <= LineCount(c) && ParagraphLine(c, b - 1)
    ensures LineAt(c, j).full.end < LineAt(c, b - 1).content.end <==> j < b - 1
  {
    hide Ready, LineStart, ParagraphLine, Content;
    LineFacts(c, j);
    LineFacts(c, b - 1);
    if j < b - 1 {
      LinesAscend(c, j + 1, b - 1);
      ParagraphHasText(c, b - 1);
    }
  }

  lemma ParagraphBounds(c: Context, lines: seq<Line>, p: nat)
    requires ParagraphFits(c, lines, p) && lines != []
    ensures p + |lines| <= LineCount(c) && forall i :: 0 <= i < |lines| ==>
      lines[i] == LineAt(c, p + i) && ParagraphLine(c, p + i)
    ensures var v, first, last := c.document.source, lines[0], lines[|lines| - 1];
      && first.full.start <= last.full.end && Valid(v)
      && LineStart(c, p) == first.content.start <= last.content.end <= |v|
      && Boundary(v, first.content.start) && Boundary(v, last.content.end)
  {
    hide Ready, ParagraphLine, Content;
    ParagraphOffsets(c, p, p + |lines|);
  }

  /** Collects the text of the lines and the endings between them, then parses it. */
  method ParseParagraph(c: Context, lines: seq<Line>, p: nat) returns (r: Result<(S.Node, TextRange)>)
    requires ParagraphFits(c, lines, p) && lines != []
    ensures r == ParagraphNode(c, lines)
  {
    hide Ready, ParagraphLine, LineStart, Content, LineCount, ParagraphNode, Boundary, Valid, ParagraphFits, LineAt;
    var v := c.document.source;
    ParagraphBounds(c, lines, p);
    var content := Range(lines[0].content.start, lines[|lines| - 1].content.end);
    var value: Text := [];
    for i := 0 to |lines|
      invariant content.start <= LineStart(c, p + i) <= |v|
      invariant value == v[content.start..if i < |lines| then LineStart(c, p + i) else content.end]
    {
      JoinLine(c, content.start, p + i);
      EndsBefore(c, p + i, p + |lines|);
      value := value + Content(c, p + i);
      if lines[i].full.end < content.end {
        value := value + EndingText(lines[i].kind);
      }
    }
    r := ParseJoined(c, lines, p, value);
  }

  /** Parses the joined text of a paragraph after its admonition label. */
  method ParseJoined(c: Context, lines: seq<Line>, p: nat, value: Text) returns (r: Result<(S.Node, TextRange)>)
    requires ParagraphFits(c, lines, p) && lines != []
    requires lines[0].content.start <= lines[|lines| - 1].content.end <= |c.document.source|
    requires value == c.document.source[lines[0].content.start..lines[|lines| - 1].content.end]
    ensures r == ParagraphNode(c, lines)
  {
    hide Ready, ParagraphLine, LineStart, Content, LineCount, AdmonitionOffset, BrokenNodes, Boundary, Valid,
      ParagraphFits, LineAt;
    ParagraphBounds(c, lines, p);
    var first, last := lines[0], lines[|lines| - 1];
    AdmonitionLands(c.document.source, first.content.start, last.content.end);
    assert TextOf(c.document.source, Range(first.content.start, last.content.end)) == Some(value);
    var offset := AdmonitionOffset(value);
    var body := Range(first.content.start + offset, last.content.end);
    assert value[offset..] == SegmentOf(c, body);
    var nodes := ParseBroken(c, body, value[offset..]);
    r := Ok((S.Node(S.Paragraph, Range(first.full.start, last.full.end), nodes), body));
  }

  /** Parses a text and splits its hard breaks. */
  method ParseBroken(c: Context, r: TextRange, text: M.Segment) returns (nodes: seq<S.Node>)
    requires TextOf(c.document.source, r) == Some(text)
    ensures nodes == BrokenNodes(c, r)
  {
    hide Ready, M.Tiles, N.Rowed, N.Landed, N.SplitHardBreaks, N.Nodes, Lands, N.Located;
    var parsed := P.ParseSegment(c.words, text, r.start, c.config, 0);
    BrokenInlines(c, r);
    nodes := N.Nodes(N.SplitHardBreaks(parsed.inlines), r.start, r.end);
  }

  method ParsePlain(c: Context, r: TextRange, text: M.Segment) returns (nodes: seq<S.Node>)
    requires TextOf(c.document.source, r) == Some(text)
    ensures nodes == PlainNodes(c, r)
  {
    hide Ready, M.Tiles, N.Rowed, N.Landed, N.Nodes, N.Located;
    var parsed := P.ParseSegment(c.words, text, r.start, c.config, 0);
    InlinesTile(c, r);
    nodes := N.Nodes(parsed.inlines, r.start, r.end);
  }

  // ---------------------------------------------------------------- blocks that do not recurse

  method ParseHeading(c: Context, i: nat, titlePosition: bool) returns (n: S.Node)
    requires i < LineCount(c) && Starts(Content(c, i), "=")
    ensures n == HeadingNode(c, i, titlePosition)
  {
    hide Ready, Content, HeadingOf, PlainNodes, Starts, HeadingKind;
    HeadingRanges(c, i);
    var content, start := Content(c, i), LineAt(c, i).content.start;
    var h := HeadingOf(content);
    var text := Range(start + h.text, start + h.textEnd);
    var nodes := ParsePlain(c, text, SegmentOf(c, text));
    n := S.Node(HeadingKind(h, titlePosition), LineAt(c, i).full,
      [S.Leaf(S.HeadingMarker, Range(start, start + h.marker))] + nodes);
  }

  method ParseMathBlock(c: Context, i: nat, end: nat) returns (r: Result<(S.Node, nat)>)
    requires i + 1 < end <= LineCount(c)
    ensures r == MathBlock(c, i, end)
  {
    hide Ready, Content, BodyOf;
    var attribute, opener := LineAt(c, i), LineAt(c, i + 1);
    var body := FindBody(c, i + 1, "++++", end);
    var stop := LineStart(c, body.next);
    if stop < attribute.full.start {
      return Err(InvariantBroken);
    }
    var node := S.Node(S.MathBlock, Range(attribute.full.start, stop),
                       [S.Leaf(S.BlockAttribute, attribute.content), Opening(opener.content, body.closed)]);
    r := Ok((node, body.next));
  }

  method ParseSimpleBlock(c: Context, k: LineClass, i: nat) returns (r: Result<(S.Node, nat)>)
    requires i < LineCount(c)
    ensures r == SimpleBlock(c, k, i)
  {
    hide Ready, Content, LiteralEnd;
    var full := LineAt(c, i).full;
    if k == Break {
      return Ok((S.Leaf(if Content(c, i) == "'''" then S.ThematicBreak else S.PageBreak, full), i + 1));
    }
    if k == LiteralParagraph {
      var next := FindLiteralEnd(c, i);
      if next <= i || LineAt(c, next - 1).full.end < full.start {
        return Err(InvariantBroken);
      }
      return Ok((S.Leaf(S.LiteralBlock, Range(full.start, LineAt(c, next - 1).full.end)), next));
    }
    r := Ok((S.Node(S.Unsupported, full, [S.Leaf(S.Unknown, full)]), i + 1));
  }

  // ---------------------------------------------------------------- lists

  method ParsePrincipalItem(c: Context, i: nat, end: nat) returns (r: Result<(ListItem, nat)>)
    requires i < end <= LineCount(c) && MarkerOf(Content(c, i)).Some?
    ensures r == PrincipalItem(c, i, end)
  {
    hide Ready, Content, MarkerOf, PrincipalEnd, Checkbox, TextOf;
    MarkerParts(c, i);
    var content, l := Content(c, i), LineAt(c, i);
    var m := MarkerOf(content).value;
    var start := l.content.start + m.text;
    if m.kind == ListTree.Unordered && Checkbox(content, m.text) {
      start := start + 4;
    }
    var stop, next := l.content.end, i + 1;
    if m.kind != ListTree.Callout {
      next := FindPrincipalEnd(c, i + 1, end);
      stop := LineAt(c, next - 1).content.end;
      if l.content.end <= start && i + 1 < next {
        start := LineAt(c, i + 1).content.start;
      }
    }
    if stop < start || LineAt(c, next - 1).full.end < l.full.start {
      return Err(InvariantBroken);
    }
    var terms := [];
    if m.term.Some? {
      terms := [Range(l.content.start, l.content.start + m.term.value)];
    }
    if TextOf(c.document.source, Range(start, stop)).None?
      || (terms != [] && TextOf(c.document.source, terms[0]).None?) {
      return Err(InvariantBroken);
    }
    var x := ItemText(Range(l.content.start + m.start, l.content.start + m.end), terms, Range(start, stop));
    r := Ok((ListTree.Flat(Min(m.depth, Max(c.maxListDepth, 1)), m.kind,
      Range(l.full.start, LineAt(c, next - 1).full.end), x), next));
  }

  /** Merges terms, builds the lists and their syntax node. */
  method BuildListNode(c: Context, items: seq<ListItem>, start: nat) returns (r: Result<(S.Node, seq<TextRange>)>)
    requires Ascending(items)
    ensures r == ListNode(c, MergeTerms(items), start)
  {
    hide Ready, MergeTerms, Ascending, ListTree.InOrder, ListTree.Forest, ListsNodes, ItemTexts;
    var flat := MergeInPlace(items);
    if flat == [] {
      return Err(InvariantBroken);
    }
    var end := flat[|flat| - 1].range.end;
    if end < start {
      return Err(InvariantBroken);
    }
    AscendingIsInOrder(flat);
    var roots := ListTree.BuildForest(flat);
    r := Ok((S.Node(S.List, Range(start, end), ListsNodes(c, roots)), ItemTexts(flat)));
  }

  // ---------------------------------------------------------------- lines

  /** A line that waits for a block or stands alone. */
  method ParseWaitingLine(c: Context, k: LineClass, s: BlockParserState, ghost start: nat, end: nat)
      returns (r: Result<Done>)
    requires s.line < end <= LineCount(c) && Inv(c, s.View(), start, end)
    requires k in {CommentText, BlankText, TitleLine, Metadata, Anchor, AttributeText}
    requires k == AttributeText ==> AttributeLine(Content(c, s.line)) && s.header.Some?
    modifies s
    ensures Follows(r, WaitStep(c, k, old(s.View()), end), s.View())
  {
    hide Ready, Inv, Content, FlushParagraph, CommentStep, BlankStep, AttributeStep, MetadataStep, AttributeLine;
    OpenParagraph(c, s.View(), start, end);
    if k == CommentText || k == BlankText {
      s.header := StopAuthor(s.header);
    }
    r := s.CloseParagraph(c);
    if r.Err? {
      return;
    }
    if k == CommentText {
      r := ParseComment(c, s, end);
    } else if k == BlankText {
      r := ParseBlank(c, s, end);
    } else if k == AttributeText {
      r := ParseAttribute(c, s, end);
    } else {
      r := ParseMetadata(c, k, s, end);
    }
  }

  method ParseComment(c: Context, s: BlockParserState, end: nat) returns (r: Result<Done>)
    requires s.line < end <= LineCount(c)
    modifies s
    ensures Follows(r, CommentStep(c, old(s.View()), end), s.View())
  {
    hide Ready;
    var comment := S.Leaf(S.CommentLine, LineAt(c, s.line).full);
    if s.pending.range.None? {
      s.blocks := s.blocks + [comment];
    } else {
      s.pending := s.pending.(syntax := s.pending.syntax + [comment]);
    }
    r := s.Advance(s.line + 1, end);
  }

  method ParseBlank(c: Context, s: BlockParserState, end: nat) returns (r: Result<Done>)
    requires s.line < end <= LineCount(c)
    modifies s
    ensures Follows(r, BlankStep(c, old(s.View()), end), s.View())
  {
    hide Ready, FlushOrphan;
    s.FlushOrphanMetadata();
    s.blocks := s.blocks + [S.Leaf(S.BlankLine, LineAt(c, s.line).full)];
    s.header := CloseAtBlank(s.header);
    r := s.Advance(s.line + 1, end);
  }

  method ParseAttribute(c: Context, s: BlockParserState, end: nat) returns (r: Result<Done>)
    requires s.line < end <= LineCount(c) && AttributeLine(Content(c, s.line)) && s.header.Some?
    modifies s
    ensures Follows(r, AttributeStep(c, old(s.View()), end), s.View())
  {
    hide Ready, Content, FlushOrphan, AttributeEnd, AttributeLine;
    var i := s.line;
    s.FlushOrphanMetadata();
    var last := FindAttributeEnd(c, i);
    if LineAt(c, last).full.end < LineAt(c, i).full.start {
      return Err(InvariantBroken);
    }
    s.blocks := s.blocks + [S.Leaf(S.DocumentAttribute, Range(LineAt(c, i).full.start, LineAt(c, last).full.end))];
    if s.header.value.open {
      s.header := Some(s.header.value.(started := true));
    }
    r := s.Advance(last + 1, end);
  }

  method ParseMetadata(c: Context, k: LineClass, s: BlockParserState, end: nat) returns (r: Result<Done>)
    requires s.line < end <= LineCount(c)
    modifies s
    ensures Follows(r, MetadataStep(c, k, old(s.View()), end), s.View())
  {
    hide Ready, PushMetadata;
    r := s.PushPending(WaitingKind(k), LineAt(c, s.line).full);
    if r.Err? {
      return;
    }
    if k == Anchor {
      s.sawContent := true;
    }
    s.header := CloseAttributes(s.header);
    r := s.Advance(s.line + 1, end);
  }

  /** What the invariant says about the open paragraph. */
  lemma OpenParagraph(c: Context, st: State, start: nat, end: nat)
    requires Inv(c, st, start, end)
    ensures |st.paragraph| <= st.line && ParagraphFits(c, st.paragraph, st.line - |st.paragraph|)
  {
    hide Ready, Tiled, PendingFits, ParagraphFits, AllLand, S.AllWellNested;
  }

  /** A block that holds no other blocks. */
  method ParseFlatLine(c: Context, k: LineClass, s: BlockParserState, ghost start: nat, end: nat)
      returns (r: Result<Done>)
    requires s.line < end <= LineCount(c) && Inv(c, s.View(), start, end)
    requires k in {Math, Break, LiteralParagraph, HeadingText, Directive, UnsupportedText}
    requires k == Math ==> s.line + 1 < end
    requires k == HeadingText ==> Starts(Content(c, s.line), "=")
    modifies s
    ensures Follows(r, FlatStep(c, k, old(s.View()), end), s.View())
  {
    hide Ready, Inv, Content, FlushParagraph, CommitBlock, MathBlock, SimpleBlock, HeadingNode, Starts;
    var i := s.line;
    OpenParagraph(c, s.View(), start, end);
    r := s.CloseParagraph(c);
    if r.Err? {
      return;
    }
    if k == HeadingText {
      r := ParseHeadingLine(c, s, end);
      return;
    }
    var parsed: Result<(S.Node, nat)>;
    if k == Math {
      parsed := ParseMathBlock(c, i, end);
    } else {
      parsed := ParseSimpleBlock(c, k, i);
    }
    if parsed.Err? {
      return Err(parsed.failure);
    }
    r := s.CommitRecognizedBlock(parsed.value.0, [], parsed.value.1, end);
    if r.Ok? {
      s.sawContent := true;
      if k != Math {
        s.header := CloseAttributes(s.header);
      }
    }
  }

  method ParseHeadingLine(c: Context, s: BlockParserState, end: nat) returns (r: Result<Done>)
    requires s.line < end <= LineCount(c) && Starts(Content(c, s.line), "=")
    modifies s
    ensures Follows(r, HeadingStep(c, old(s.View()), end), s.View())
  {
    hide Ready, Content, CommitBlock, HeadingNode, Starts;
    var position := s.header.Some? && !s.sawContent;
    var node := ParseHeading(c, s.line, position);
    r := s.CommitRecognizedBlock(node, [], s.line + 1, end);
    if r.Ok? {
      if s.header.Some? && node.kind == S.DocumentTitle {
        s.header := Some(s.header.value.(open := true, started := true, author := true));
      }
      s.sawContent := true;
    }
  }

  /** A delimited block or a list. */
  method ParseNestingLine(c: Context, k: LineClass, s: BlockParserState, ghost start: nat, end: nat, depth: nat)
      returns (r: Result<Done>)
    requires s.line < end <= LineCount(c) && Inv(c, s.View(), start, end) && StopsAt(c, end)
    requires (k == Delimited && DelimiterOf(Content(c, s.line)).Some?)
      || (k == ListText && MarkerOf(Content(c, s.line)).Some?)
    modifies s
    ensures Follows(r, NestingStep(c, k, old(s.View()), end, depth), s.View())
    decreases end - s.line, 4
  {
    hide Ready, Inv, Content, FlushParagraph, CommitBlock, DelimitedBlock, ListItems, ListNode, DelimiterOf, MarkerOf,
      StopsAt, Ascending, MergeTerms, LineStart;
    var i := s.line;
    OpenParagraph(c, s.View(), start, end);
    r := s.CloseParagraph(c);
    if r.Err? {
      return;
    }
    if k == Delimited {
      var parsed := ParseDelimitedBlock(c, i, end, DelimiterOf(Content(c, i)).value, depth);
      if parsed.Err? {
        return Err(parsed.failure);
      }
      r := s.CommitRecognizedBlock(parsed.value.0, parsed.value.1, parsed.value.2, end);
    } else {
      var parsed := ParseListItems(c, i, end, depth);
      if parsed.Err? {
        return Err(parsed.failure);
      }
      var (items, next) := parsed.value;
      if !Ascending(items) {
        return Err(InvariantBroken);
      }
      var list := BuildListNode(c, items, LineStart(c, i));
      if list.Err? {
        return Err(list.failure);
      }
      r := s.CommitRecognizedBlock(list.value.0, list.value.1, next, end);
    }
    if r.Ok? {
      s.sawContent := true;
      s.header := CloseAttributes(s.header);
    }
  }

  /** A line that is no author or revision line, by its class. */
  method ParseBodyLine(c: Context, s: BlockParserState, ghost start: nat, end: nat, depth: nat)
      returns (r: Result<Done>)
    requires s.line < end <= LineCount(c) && Inv(c, s.View(), start, end) && StopsAt(c, end)
    modifies s
    ensures Follows(r, BodyStep(c, old(s.View()), end, depth), s.View())
    decreases end - s.line, 5
  {
    hide Ready, Inv, Content, StopsAt, WaitStep, FlatStep, NestingStep, Classify, SetOff;
    var i := s.line;
    var setOff := FindSetOff(c, i, s.header.Some? && (s.sawContent || !s.header.value.open));
    var position := s.header.Some? && (s.header.value.open || setOff);
    var next := if i + 1 < end then Some(Content(c, i + 1)) else None;
    var k := Classify(c.grammar, Content(c, i), next, position);
    assert k == ClassAt(c, s.View(), end);
    ClassMeans(c, s.View(), end);
    ClassFacts(c, s.View(), end);
    if k == ParagraphText {
      s.paragraph := s.paragraph + [LineAt(c, i)];
      s.sawContent := true;
      s.header := CloseAttributes(s.header);
      r := s.Advance(i + 1, end);
    } else if k in {CommentText, BlankText, TitleLine, Metadata, Anchor, AttributeText} {
      r := ParseWaitingLine(c, k, s, start, end);
    } else if k in {Delimited, ListText} {
      r := ParseNestingLine(c, k, s, start, end, depth);
    } else {
      r := ParseFlatLine(c, k, s, start, end);
    }
  }

  /** One step of the line loop. */
  method ParseLine(c: Context, s: BlockParserState, ghost start: nat, end: nat, depth: nat) returns (r: Result<Done>)
    requires s.line < end <= LineCount(c) && Inv(c, s.View(), start, end) && StopsAt(c, end)
    modifies s
    ensures Follows(r, Step(c, old(s.View()), end, depth), s.View())
    decreases end - s.line, 6
  {
    hide Ready, Inv, Content, StopsAt, BodyStep, HeaderText, AllBlank;
    var content, full := Content(c, s.line), LineAt(c, s.line).full;
    if !AllBlank(content) && s.header.Some? {
      var h := s.header.value;
      s.header := Some(h.(author := false));
      if h.author && HeaderText(content) && c.grammar.author(content) {
        s.header := Some(h.(author := false, revision := true, started := true));
        s.blocks := s.blocks + [S.Leaf(S.AuthorLine, full)];
        r := s.Advance(s.line + 1, end);
        return;
      }
      s.header := Some(h.(author := false, revision := false));
      if h.revision && HeaderText(content) {
        s.header := Some(h.(author := false, revision := false, started := true));
        s.blocks := s.blocks + [S.Leaf(S.RevisionLine, full)];
        r := s.Advance(s.line + 1, end);
        return;
      }
      HeaderKeeps(c, old(s.View()), Some(h.(author := false, revision := false)), s.sawContent, start, end);
    }
    r := ParseBodyLine(c, s, start, end, depth);
  }

  // ---------------------------------------------------------------- sequences and what nests

  lemma SequenceUnfolds(c: Context, st: State, end: nat, depth: nat)
    requires st.line < end <= LineCount(c)
    ensures var next := Step(c, st, end, depth);
      Sequence(c, st, end, depth) == if next.Err? then Err(next.failure) else Sequence(c, next.value, end, depth)
  {
    hide Ready, Step;
  }

  /** The line loop over `[start, end)`. */
  method ParseBlockSequence(c: Context, start: nat, end: nat, depth: nat, root: bool) returns (r: Result<Parsed>)
    requires start <= end <= LineCount(c) && StopsAt(c, end) && (root ==> end == LineCount(c))
    ensures r == Sequence(c, Initial(start, root), end, depth)
    decreases end - start, 7
  {
    hide Ready, Inv, StopsAt, Step, Sequence, FlushParagraph, FlushOrphan;
    var s := new BlockParserState(start, root);
    InitialInv(c, start, root, end);
    while s.line < end
      invariant start <= s.line <= end && fresh(s) && Inv(c, s.View(), start, end) && s.header.Some? == root
      invariant Sequence(c, s.View(), end, depth) == Sequence(c, Initial(start, root), end, depth)
      decreases end - s.line
    {
      SequenceUnfolds(c, s.View(), end, depth);
      StepKeeps(c, s.View(), start, end, depth);
      var step := ParseLine(c, s, start, end, depth);
      if step.Err? {
        return Err(step.failure);
      }
    }
    SequenceEnds(c, s.View(), end, depth);
    OpenParagraph(c, s.View(), start, end);
    var closed := s.CloseParagraph(c);
    if closed.Err? {
      return Err(closed.failure);
    }
    s.FlushOrphanMetadata();
    r := Ok(Parsed(s.blocks, s.texts, s.line));
  }

  lemma SequenceEnds(c: Context, st: State, end: nat, depth: nat)
    requires end <= st.line && end <= LineCount(c)
    ensures var flushed := FlushParagraph(c, st);
      Sequence(c, st, end, depth) ==
        if flushed.Err? then Err(flushed.failure)
        else Ok(Parsed(FlushOrphan(flushed.value).blocks, FlushOrphan(flushed.value).texts,
          FlushOrphan(flushed.value).line))
  {
    hide Ready, FlushParagraph, FlushOrphan;
  }

  method ParseNestedBlocks(c: Context, start: nat, end: nat, depth: nat) returns (r: Result<Parsed>)
    requires start <= end <= LineCount(c) && StopsAt(c, end)
    ensures r == NestedBlocks(c, start, end, depth)
    decreases end - start, 8
  {
    hide Ready, StopsAt, Sequence;
    if Max(c.maxBlockDepth, 1) < depth {
      return Err(DepthLimit(depth));
    }
    if start == end {
      return Ok(Parsed([], [], end));
    }
    r := ParseBlockSequence(c, start, end, depth, false);
  }

  method ParseDelimitedBlock(c: Context, i: nat, end: nat, kind: DelimitedKind, depth: nat)
      returns (r: Result<(S.Node, seq<TextRange>, nat)>)
    requires i < end <= LineCount(c) && StopsAt(c, end) && DelimiterOf(Content(c, i)) == Some(kind)
    ensures r == DelimitedBlock(c, i, end, kind, depth)
    decreases end - i, 3
  {
    hide Ready, StopsAt, Content, BodyOf, NestedBlocks, DelimitedNode, DelimiterOf, LineStart;
    var body := FindBody(c, i, Content(c, i), end);
    var nested := Parsed([], [], end);
    if Compound(kind) {
      BodyStops(c, i, kind, end);
      var inner := ParseNestedBlocks(c, i + 1, body.contentEnd, depth + 1);
      if inner.Err? {
        return Err(inner.failure);
      }
      nested := inner.value;
    }
    var start, stop := LineAt(c, i).full.start, LineStart(c, body.next);
    if stop < start {
      return Err(InvariantBroken);
    }
    r := Ok((DelimitedNode(c, i, body, kind, Range(start, stop), nested.blocks), nested.texts, body.next));
  }

  /** Reads items while lines open with a marker. */
  method ParseListItems(c: Context, i: nat, end: nat, depth: nat) returns (r: Result<(seq<ListItem>, nat)>)
    requires i <= end <= LineCount(c) && StopsAt(c, end)
    ensures r == ListItems(c, i, end, depth)
    decreases end - i, 3
  {
    hide Ready, StopsAt, Content, MarkerOf, ListItemAt, ListItems;
    var flat: seq<ListItem> := [];
    var index := i;
    ghost var all := ListItems(c, i, end, depth);
    ItemsAfter(all);
    while index < end
      invariant i <= index <= end && all == After(flat, ListItems(c, index, end, depth))
    {
      ListItemsUnfold(c, index, end, depth, flat);
      if MarkerOf(Content(c, index)).None? {
        break;
      }
      var parsed := ParseListItem(c, index, end, depth);
      if parsed.Err? {
        return Err(parsed.failure);
      }
      flat := flat + [parsed.value.0];
      index := parsed.value.1;
    }
    ListItemsUnfold(c, index, end, depth, flat);
    r := Ok((flat, index));
  }

  ghost function After(done: seq<ListItem>, rest: Result<(seq<ListItem>, nat)>): Result<(seq<ListItem>, nat)> {
    match rest case Err(e) => Err(e) case Ok(p) => Ok((done + p.0, p.1))
  }

  lemma ItemsAfter(r: Result<(seq<ListItem>, nat)>)
    ensures After([], r) == r
  {
    if r.Ok? {
      assert [] + r.value.0 == r.value.0;
    }
  }

  lemma ListItemsUnfold(c: Context, i: nat, end: nat, depth: nat, done: seq<ListItem>)
    requires i <= end <= LineCount(c)
    ensures var all := After(done, ListItems(c, i, end, depth));
      if i == end || MarkerOf(Content(c, i)).None? then all == Ok((done, i))
      else
        var item := ListItemAt(c, i, end, depth);
        all == if item.Err? then Err(item.failure)
          else After(done + [item.value.0], ListItems(c, item.value.1, end, depth))
  {
    hide Ready, ListItemAt, Content, MarkerOf;
    if i < end && MarkerOf(Content(c, i)).Some? && ListItemAt(c, i, end, depth).Ok? {
      var (item, next) := ListItemAt(c, i, end, depth).value;
      var rest := ListItems(c, next, end, depth);
      if rest.Ok? {
        assert done + ([item] + rest.value.0) == done + [item] + rest.value.0;
      }
    } else {
      assert done + [] == done;
    }
  }

  /** One item, then the blocks attached to it by `+` lines. */
  method ParseListItem(c: Context, i: nat, end: nat, depth: nat) returns (r: Result<(ListItem, nat)>)
    requires i < end <= LineCount(c) && StopsAt(c, end) && MarkerOf(Content(c, i)).Some?
    ensures r == ListItemAt(c, i, end, depth)
    decreases end - i, 2
  {
    hide Ready, StopsAt, Content, MarkerOf, PrincipalItem, Attachments, Attachment;
    var principal := ParsePrincipalItem(c, i, end);
    if principal.Err? {
      return Err(principal.failure);
    }
    var (item, index) := principal.value;
    var stop: nat := item.range.end;
    ghost var all := Attachments(c, index, end, depth, stop);
    while index < LineCount(c) && Content(c, index) == "+"
      invariant i < index <= end
      invariant all == Attachments(c, index, end, depth, stop)
      decreases end - index
    {
      AttachmentsUnfold(c, index, end, depth, stop);
      var attached := ParseListContinuation(c, index + 1, end, depth);
      if attached.Err? {
        return Err(attached.failure);
      }
      if attached.value.None? {
        break;
      }
      stop, index := attached.value.value.0, attached.value.value.1;
    }
    AttachmentsUnfold(c, index, end, depth, stop);
    if stop < item.range.start {
      return Err(InvariantBroken);
    }
    r := Ok((item.(range := Range(item.range.start, stop)), index));
  }

  lemma AttachmentsUnfold(c: Context, i: nat, end: nat, depth: nat, stop: nat)
    requires i <= end <= LineCount(c)
    ensures var all := Attachments(c, i, end, depth, stop);
      if i == LineCount(c) || Content(c, i) != "+" then all == Ok((stop, i))
      else
        var a := Attachment(c, i + 1, end, depth);
        all == if a.Err? then Err(a.failure) else if a.value.None? then Ok((stop, i))
          else Attachments(c, a.value.value.1, end, depth, a.value.value.0)
  {
    hide Ready, Attachment, Content;
  }

  method ParseListContinuation(c: Context, i: nat, end: nat, depth: nat) returns (r: Result<Option<(nat, nat)>>)
    requires end <= LineCount(c) && StopsAt(c, end)
    ensures r == Attachment(c, i, end, depth)
    decreases if i < end then end - i else 0, if i < end then 4 else 1
  {
    hide Ready, StopsAt, Content, AllBlank, ContinuationStart, DelimiterOf, MarkerOf, DelimitedBlock, ListItems,
      Ascending, MergeTerms, ListTree.Forest, ListTree.InOrder;
    if end <= i || AllBlank(Content(c, i)) {
      return Ok(None);
    }
    var k := FindContinuationStart(c, i, end);
    var delimiter := DelimiterOf(Content(c, k));
    if delimiter.Some? {
      var block := ParseDelimitedBlock(c, k, end, delimiter.value, depth + 1);
      return if block.Err? then Err(block.failure) else Ok(Some((block.value.0.range.end, block.value.2)));
    }
    if MarkerOf(Content(c, k)).Some? {
      var parsed := ParseListItems(c, k, end, depth);
      if parsed.Err? {
        return Err(parsed.failure);
      }
      var (items, next) := parsed.value;
      if items == [] || !Ascending(items) {
        return Err(InvariantBroken);
      }
      var flat := MergeInPlace(items);
      AscendingIsInOrder(flat);
      var roots := ListTree.BuildForest(flat);
      ListTree.ForestFits(flat, 0, flat[0].range.start);
      return Ok(Some((roots[|roots| - 1].range.end, next)));
    }
    r := Ok(Some((LineAt(c, k).full.end, k + 1)));
  }
}
