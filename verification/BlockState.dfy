/** State of the block parser and the operations on it that do not recurse. */
module BlockState {
  import opened Text
  import opened Source
  import opened BlockGrammar
  import opened BlockModel
  import opened Delimiter
  import G = InlineGrammar
  import S = Syntax

  /** Header phase of a root document: whether attributes may still be header attributes,
      whether an author or a revision line may come next, and whether the header has begun. */
  datatype Header = Header(open: bool, author: bool, revision: bool, started: bool)

  /** Metadata lines that wait for the block they precede. `range` runs from the first to the
      last of them; `syntax` also holds the comments met since. */
  datatype Pending = Pending(range: Option<TextRange>, syntax: seq<S.Node>)

  const NOTHING := Pending(None, [])

  /** `texts` are the ranges of the texts in `blocks` whose hard breaks were split. */
  datatype State = State(
    line: nat, header: Option<Header>, pending: Pending, paragraph: seq<Line>, sawContent: bool,
    blocks: seq<S.Node>, texts: seq<TextRange>)

  function Initial(start: nat, root: bool): State {
    State(start, if root then Some(Header(true, false, false, false)) else None, NOTHING, [], false, [], [])
  }

  function Between(start: nat, end: nat): Result<TextRange> {
    if start <= end then Ok(Range(start, end)) else Err(InvariantBroken)
  }

  // ---------------------------------------------------------------- header phase

  function CloseAttributes(h: Option<Header>): Option<Header> {
    match h case None => None case Some(x) => Some(x.(open := false))
  }

  function StopAuthor(h: Option<Header>): Option<Header> {
    match h case None => None case Some(x) => Some(x.(author := false, revision := false))
  }

  function CloseAtBlank(h: Option<Header>): Option<Header> {
    match h case None => None case Some(x) => Some(if x.open && x.started then x.(open := false) else x)
  }

  /** Whether the attribute line at `i` is set off from the text before it: only other
      attribute lines lie between it and a blank or comment line. */
  function SetOff(c: Context, i: nat): bool
    requires i <= LineCount(c)
  {
    0 < i &&
    var above := Content(c, i - 1);
    if AllBlank(above) || Starts(above, "//") then true
    else AttributeLine(above) && SetOff(c, i - 1)
  }

  function AttributePosition(c: Context, st: State): bool
    requires st.line <= LineCount(c)
  {
    st.header.Some? &&
    (st.header.value.open || ((st.sawContent || !st.header.value.open) && SetOff(c, st.line)))
  }

  /** The last line of the attribute at `i`, whose value may continue over several lines. */
  function ValueEnd(c: Context, i: nat): (r: nat)
    requires i < LineCount(c)
    ensures i <= r < LineCount(c)
    decreases LineCount(c) - i
  {
    if Continues(Content(c, i)) && i + 1 < LineCount(c) then ValueEnd(c, i + 1) else i
  }

  function AttributeEnd(c: Context, i: nat): (r: nat)
    requires i < LineCount(c) && AttributeLine(Content(c, i))
    ensures i <= r < LineCount(c)
  {
    if Unsets(Content(c, i)) then i else ValueEnd(c, i)
  }

  // ---------------------------------------------------------------- pending metadata

  function PushMetadata(p: Pending, kind: S.Kind, line: TextRange): Result<Pending> {
    match p.range
    case None => Ok(Pending(Some(line), p.syntax + [S.Leaf(kind, line)]))
    case Some(r) =>
      if r.start <= line.end then Ok(Pending(Some(Range(r.start, line.end)), p.syntax + [S.Leaf(kind, line)]))
      else Err(InvariantBroken)
  }

  /** Gives the pending metadata to the last block. */
  function AttachPending(st: State): (r: Result<State>)
    ensures r.Ok? ==> r.value.line == st.line && r.value.header == st.header
  {
    match st.pending.range
    case None => Ok(st)
    case Some(r) =>
      if st.blocks == [] then Ok(st.(pending := NOTHING))
      else
        var last := st.blocks[|st.blocks| - 1];
        if last.range.end < r.start then Err(InvariantBroken)
        else
          var node := S.Node(last.kind, Range(r.start, last.range.end), st.pending.syntax + last.children);
          Ok(st.(pending := NOTHING, blocks := st.blocks[..|st.blocks| - 1] + [node]))
  }

  /** How many of the pending nodes stand before the end of the metadata. */
  function Attached(s: seq<S.Node>, end: nat): (r: nat)
    ensures r <= |s|
  {
    if s == [] || end <= s[0].range.start then 0 else 1 + Attached(s[1..], end)
  }

  /** Metadata that no block follows becomes a block of its own; later comments stay apart. */
  function FlushOrphan(st: State): (r: State)
    ensures r.line == st.line && r.header == st.header
  {
    match st.pending.range
    case None => st
    case Some(r) =>
      var k := Attached(st.pending.syntax, r.end);
      var orphan := S.Node(S.Unsupported, r, [S.Node(S.Unknown, r, st.pending.syntax[..k])]);
      st.(pending := NOTHING, blocks := st.blocks + [orphan] + st.pending.syntax[k..])
  }

  // ---------------------------------------------------------------- paragraphs

  predicate AllSpace(v: Text)
    decreases |v|
  {
    v == [] || (0 < CharLen(v[0]) <= |v| && G.Whitespace(v[..CharLen(v[0])]) && AllSpace(v[CharLen(v[0])..]))
  }

  /** Where the body of a paragraph starts: after `NOTE: ` and the like, else at 0. */
  function AdmonitionOffset(v: Text): (r: nat)
    ensures r <= |v| && (0 < r ==> Blank(v[r - 1]))
  {
    match NextUnit(v, 0, ':')
    case None => 0
    case Some(i) =>
      var spaces := BlankRun(v[i + 1..]);
      if v[..i] in ADMONITIONS && 0 < spaces && !AllSpace(v[i + 1 + spaces..]) then
        BlanksBefore(v[i + 1..]);
        i + 1 + spaces
      else 0
  }

  lemma {:induction false} BlanksBefore(v: Text)
    ensures var r := BlankRun(v); 0 < r ==> Blank(v[r - 1])
  {
    if BlankRun(v) > 1 {
      BlanksBefore(v[1..]);
    }
  }

  /** The node of a paragraph over some lines, and the range its inlines are parsed from. */
  function ParagraphNode(c: Context, lines: seq<Line>): Result<(S.Node, TextRange)>
    requires lines != []
  {
    var first, last := lines[0], lines[|lines| - 1];
    var range :- Between(first.full.start, last.full.end);
    var content :- Between(first.content.start, last.content.end);
    match TextOf(c.document.source, content)
    case None => Err(InvariantBroken)
    case Some(value) =>
      var body :- Between(content.start + AdmonitionOffset(value), content.end);
      Ok((S.Node(S.Paragraph, range, BrokenNodes(c, body)), body))
  }

  /** Closes the paragraph collected so far. */
  function FlushParagraph(c: Context, st: State): (r: Result<State>)
    ensures r.Ok? ==> r.value.line == st.line && r.value.header == st.header
  {
    if st.paragraph == [] then Ok(st)
    else
      var (node, body) :- ParagraphNode(c, st.paragraph);
      AttachPending(st.(paragraph := [], blocks := st.blocks + [node], texts := st.texts + [body]))
  }

  // ---------------------------------------------------------------- moving on

  /** The cursor only moves forward, and never past the lines being parsed. */
  function Commit(st: State, next: nat, end: nat): (r: Result<State>)
    ensures r.Ok? ==> st.line < r.value.line <= end
  {
    if next <= st.line || end < next then Err(InvariantBroken) else Ok(st.(line := next))
  }

  /** Adds a block that ends before line `next`, with the metadata that waits for it. */
  function CommitBlock(st: State, node: S.Node, texts: seq<TextRange>, next: nat, end: nat): (r: Result<State>)
    ensures r.Ok? ==> st.line < r.value.line <= end && r.value.header == st.header
  {
    var moved :- Commit(st, next, end);
    AttachPending(moved.(blocks := moved.blocks + [node], texts := moved.texts + texts))
  }

  function BodySeen(st: State): State {
    st.(sawContent := true, header := CloseAttributes(st.header))
  }

  // ---------------------------------------------------------------- block forms

  function LiteralEnd(c: Context, i: nat): (r: nat)
    requires i <= LineCount(c)
    ensures i <= r <= LineCount(c)
    decreases LineCount(c) - i
  {
    if i < LineCount(c) && StartsBlank(Content(c, i)) then LiteralEnd(c, i + 1) else i
  }

  /** The blocks that take one line, or as many indented lines as follow. */
  function SimpleBlock(c: Context, k: LineClass, i: nat): (r: Result<(S.Node, nat)>)
    requires i < LineCount(c)
  {
    var full := LineAt(c, i).full;
    match k
    case Break => Ok((S.Leaf(if Content(c, i) == "'''" then S.ThematicBreak else S.PageBreak, full), i + 1))
    case LiteralParagraph =>
      var next := LiteralEnd(c, i);
      if next <= i then Err(InvariantBroken)
      else
        var range :- Between(full.start, LineAt(c, next - 1).full.end);
        Ok((S.Leaf(S.LiteralBlock, range), next))
    case _ => Ok((S.Node(S.Unsupported, full, [S.Leaf(S.Unknown, full)]), i + 1))
  }

  /** A delimiter leaf, inside an error node when the block has no closer. */
  function Opening(range: TextRange, closed: bool): S.Node {
    if closed then S.Leaf(S.BlockDelimiter, range) else S.Node(S.ErrorNode, range, [S.Leaf(S.BlockDelimiter, range)])
  }

  function MathBlock(c: Context, i: nat, end: nat): (r: Result<(S.Node, nat)>)
    requires i + 1 < end <= LineCount(c)
  {
    var body := BodyOf(c, i + 1, "++++", end);
    var range :- Between(LineAt(c, i).full.start, LineStart(c, body.next));
    Ok((S.Node(S.MathBlock, range,
      [S.Leaf(S.BlockAttribute, LineAt(c, i).content), Opening(LineAt(c, i + 1).content, body.closed)]), body.next))
  }

  datatype HeadingParts = HeadingParts(marker: nat, text: nat, textEnd: nat, spaced: bool)

  function HeadingOf(c: Text): (r: HeadingParts)
    ensures r.marker <= r.text <= r.textEnd <= |c|
  {
    var marker := Run(c, '=');
    var spaced := marker < |c| && c[marker] == ' ';
    var text := if spaced then marker + 1 else marker;
    HeadingParts(marker, text, text + TrimmedEnd(c[text..]), spaced)
  }

  function HeadingKind(h: HeadingParts, titlePosition: bool): S.Kind {
    if !h.spaced || h.text == h.textEnd || 6 < h.marker || (h.marker == 1 && !titlePosition) then S.MalformedHeading
    else if h.marker == 1 then S.DocumentTitle
    else S.Heading
  }

  function HeadingNode(c: Context, i: nat, titlePosition: bool): S.Node
    requires i < LineCount(c)
  {
    var h, start := HeadingOf(Content(c, i)), LineAt(c, i).content.start;
    S.Node(HeadingKind(h, titlePosition), LineAt(c, i).full,
           [S.Leaf(S.HeadingMarker, Range(start, start + h.marker))]
             + PlainNodes(c, Range(start + h.text, start + h.textEnd)))
  }

  // ---------------------------------------------------------------- list items

  /** The lines that carry on the text of a list item. */
  function PrincipalEnd(c: Context, i: nat, end: nat): (r: nat)
    requires i <= end <= LineCount(c)
    ensures i <= r <= end
    decreases end - i
  {
    if i < end && Content(c, i) != "+" && MarkerOf(Content(c, i)).None?
       && var next := if i + 1 < LineCount(c) then Some(Content(c, i + 1)) else None;
          Classify(c.grammar, Content(c, i), next, false) in {ParagraphText, LiteralParagraph}
    then PrincipalEnd(c, i + 1, end)
    else i
  }

  /** `[ ] `, `[x] `, `[X] ` or `[*] ` after the marker of an unordered item. */
  predicate Checkbox(c: Text, at: nat) {
    && at + 4 <= |c| && c[at] == '[' && c[at + 2] == ']' && Blank(c[at + 3]) && c[at + 1] in " xX*"
  }

  predicate MetadataLine(c: Text) {
    BlockTitle(c) || AnchorLine(c) || BlockAttributes(c)
  }

  function MetadataRun(c: Context, i: nat, end: nat): (r: nat)
    requires i <= end <= LineCount(c)
    ensures i <= r <= end
    decreases end - i
  {
    if i < end && !AllBlank(Content(c, i)) && MetadataLine(Content(c, i)) then MetadataRun(c, i + 1, end) else i
  }

  /** Where the block of a list continuation starts: after its metadata lines, unless a blank
      line or the end follows them, when they are no metadata. */
  function ContinuationStart(c: Context, i: nat, end: nat): (r: nat)
    requires i < end <= LineCount(c)
    ensures i <= r < end
  {
    var k := MetadataRun(c, i, end);
    if k < end && !AllBlank(Content(c, k)) then k else i
  }
}
