/** The recursive block grammar: sequences of lines, delimited blocks and lists. */
module BlockParser {
  import opened Text
  import opened Source
  import opened BlockGrammar
  import opened BlockModel
  import opened BlockState
  import opened Delimiter
  import opened ListTree
  import S = Syntax

  /** What the syntax tree shows of a list item: its marker, its terms and its text. */
  datatype ItemText = ItemText(marker: TextRange, terms: seq<TextRange>, text: TextRange)

  type ListItem = Flat<ItemText>

  /** Parsed blocks, the texts in them whose hard breaks were split, and the line after them. */
  datatype Parsed = Parsed(blocks: seq<S.Node>, texts: seq<TextRange>, next: nat)

  // ---------------------------------------------------------------- list nodes

  function TermNodes(c: Context, terms: seq<TextRange>): seq<S.Node> {
    hide Ready, PlainNodes, BrokenNodes, Inlines;
    if terms == [] then [] else PlainNodes(c, terms[0]) + TermNodes(c, terms[1..])
  }

  function ListsNodes(c: Context, ls: seq<ListBlock<ItemText>>): seq<S.Node>
    decreases ls
  {
    hide Ready, PlainNodes, BrokenNodes, Inlines;
    if ls == [] then [] else ItemsNodes(c, ls[0].items) + ListsNodes(c, ls[1..])
  }

  function ItemsNodes(c: Context, items: seq<Item<ItemText>>): seq<S.Node>
    decreases items
  {
    hide Ready, PlainNodes, BrokenNodes, Inlines;
    if items == [] then []
    else
      [ItemNode(c, items[0].flat.content, items[0].range, ListsNodes(c, items[0].children))] + ItemsNodes(c, items[1..])
  }

  function ItemNode(c: Context, x: ItemText, range: TextRange, children: seq<S.Node>): S.Node {
    S.Node(S.ListItem, range,
      [S.Leaf(S.ListMarker, x.marker)] + TermNodes(c, x.terms) + BrokenNodes(c, x.text) + children)
  }

  /** A description term without text shares the text of the next item of its depth. */
  predicate Combines(a: ListItem, b: ListItem) {
    a.kind == Description && a.content.text.start == a.content.text.end && b.kind == Description && b.depth == a.depth
  }

  function Combined(a: ListItem, b: ListItem): ListItem
    requires a.range.start <= b.range.end
  {
    b.(range := Range(a.range.start, b.range.end), content := b.content.(terms := a.content.terms + b.content.terms))
  }

  /** Merges terms from left to right. */
  function MergeTerms(s: seq<ListItem>): (r: seq<ListItem>)
    requires Ascending(s)
    ensures Ascending(r) && |r| <= |s|
    ensures s != [] ==> r != [] && r[0].range.start == s[0].range.start && r[|r| - 1].range.end == s[|s| - 1].range.end
    decreases |s|
  {
    if |s| < 2 then s
    else if Combines(s[0], s[1]) then
      CombinedAscends(s);
      MergeTerms([Combined(s[0], s[1])] + s[2..])
    else [s[0]] + MergeTerms(s[1..])
  }

  lemma CombinedAscends(s: seq<ListItem>)
    requires Ascending(s) && 2 <= |s| && s[0].range.start <= s[1].range.end
    ensures Ascending([Combined(s[0], s[1])] + s[2..])
  {
    var r := [Combined(s[0], s[1])] + s[2..];
    assert r[1..] == s[2..] == s[1..][1..];
    if |r| > 1 {
      assert s[1..][0] == s[1] && s[1..][1] == s[2] == r[1];
      assert Ascending(s[1..]);
    }
  }

  /** Each item ends before the next one starts. */
  predicate Ascending(s: seq<ListItem>) {
    |s| < 2 || (s[0].range.end <= s[1].range.start && Ascending(s[1..]))
  }

  lemma {:induction false} AscendingIsInOrder(s: seq<ListItem>)
    requires Ascending(s)
    ensures InOrder(s)
    decreases |s|
  {
    if |s| >= 2 {
      AscendingIsInOrder(s[1..]);
      forall i, j | 0 <= i < j < |s| ensures s[i].range.end <= s[j].range.start {
        if i > 0 {
          assert s[i] == s[1..][i - 1] && s[j] == s[1..][j - 1];
        } else if j > 1 {
          assert s[1..][0].range.end <= s[1..][j - 1].range.start;
        }
      }
    }
  }

  /** The syntax node of a run of list items, and the split texts in it. */
  function ListNode(c: Context, flat: seq<ListItem>, start: nat): Result<(S.Node, seq<TextRange>)> {
    hide Ready, PlainNodes, BrokenNodes, Inlines;
    if flat == [] || !Ascending(flat) then Err(InvariantBroken)
    else
      AscendingIsInOrder(flat);
      var range :- Between(start, flat[|flat| - 1].range.end);
      Ok((S.Node(S.List, range, ListsNodes(c, Forest(flat, 0))), ItemTexts(flat)))
  }

  function ItemTexts(s: seq<ListItem>): seq<TextRange> {
    if s == [] then [] else [s[0].content.text] + ItemTexts(s[1..])
  }

  // ---------------------------------------------------------------- lists

  /** A list item as its marker line gives it, with the lines that carry on its text. */
  function PrincipalItem(c: Context, i: nat, end: nat): (r: Result<(ListItem, nat)>)
    requires i < end <= LineCount(c) && MarkerOf(Content(c, i)).Some?
    ensures r.Ok? ==> i < r.value.1 <= end
  {
    var content, l := Content(c, i), LineAt(c, i);
    var m := MarkerOf(content).value;
    var from := l.content.start + m.text + (if m.kind == Unordered && Checkbox(content, m.text) then 4 else 0);
    var next := if m.kind == Callout then i + 1 else PrincipalEnd(c, i + 1, end);
    var start := if l.content.end <= from && i + 1 < next then LineAt(c, i + 1).content.start else from;
    var text :- Between(start, LineAt(c, next - 1).content.end);
    var range :- Between(l.full.start, LineAt(c, next - 1).full.end);
    var terms := match m.term case None => [] case Some(n) => [Range(l.content.start, l.content.start + n)];
    if TextOf(c.document.source, text).None? || (terms != [] && TextOf(c.document.source, terms[0]).None?) then
      Err(InvariantBroken)
    else
      var x := ItemText(Range(l.content.start + m.start, l.content.start + m.end), terms, text);
      Ok((Flat(Min(m.depth, Max(c.maxListDepth, 1)), m.kind, range, x), next))
  }

  function ListItemAt(c: Context, i: nat, end: nat, depth: nat): (r: Result<(ListItem, nat)>)
    requires i < end <= LineCount(c) && MarkerOf(Content(c, i)).Some?
    ensures r.Ok? ==> i < r.value.1 <= end
    decreases end - i, 1
  {
    var (item, next) :- PrincipalItem(c, i, end);
    var (stop, last) :- Attachments(c, next, end, depth, item.range.end);
    var range :- Between(item.range.start, stop);
    Ok((item.(range := range), last))
  }

  /** Blocks attached by `+` lines. `stop` is where the last of them ends. */
  function Attachments(c: Context, i: nat, end: nat, depth: nat, stop: nat): (r: Result<(nat, nat)>)
    requires i <= end <= LineCount(c)
    ensures r.Ok? ==> i <= r.value.1 <= end
    decreases end - i, 2
  {
    if i == LineCount(c) || Content(c, i) != "+" then Ok((stop, i))
    else
      var a :- Attachment(c, i + 1, end, depth);
      match a
      case None => Ok((stop, i))
      case Some((attached, next)) => Attachments(c, next, end, depth, attached)
  }

  /** The block of a continuation: where its text ends, and the line after it. */
  function Attachment(c: Context, i: nat, end: nat, depth: nat): (r: Result<Option<(nat, nat)>>)
    requires end <= LineCount(c)
    ensures r.Ok? && r.value.Some? ==> i < r.value.value.1 <= end
    decreases if i < end then end - i else 0, if i < end then 4 else 1
  {
    if end <= i || AllBlank(Content(c, i)) then Ok(None)
    else
      var k := ContinuationStart(c, i, end);
      var delimiter := DelimiterOf(Content(c, k));
      if delimiter.Some? then
        var (node, texts, next) :- DelimitedBlock(c, k, end, delimiter.value, depth + 1);
        Ok(Some((node.range.end, next)))
      else if MarkerOf(Content(c, k)).Some? then
        var (items, next) :- ListItems(c, k, end, depth);
        if items == [] || !Ascending(items) then Err(InvariantBroken)
        else
          var flat := MergeTerms(items);
          AscendingIsInOrder(flat);
          var roots := Forest(flat, 0);
          Ok(Some((roots[|roots| - 1].range.end, next)))
      else Ok(Some((LineAt(c, k).full.end, k + 1)))
  }

  function ListItems(c: Context, i: nat, end: nat, depth: nat): (r: Result<(seq<ListItem>, nat)>)
    requires i <= end <= LineCount(c)
    ensures r.Ok? ==> i <= r.value.1 <= end
    ensures r.Ok? && i < end && MarkerOf(Content(c, i)).Some? ==> i < r.value.1
    decreases end - i, 3
  {
    if i == end || MarkerOf(Content(c, i)).None? then Ok(([], i))
    else
      var (item, next) :- ListItemAt(c, i, end, depth);
      var (rest, last) :- ListItems(c, next, end, depth);
      Ok(([item] + rest, last))
  }

  // ---------------------------------------------------------------- delimited blocks

  function DelimitedNode(c: Context, i: nat, body: Body, kind: DelimitedKind, range: TextRange,
      nested: seq<S.Node>): S.Node
    requires i < LineCount(c) && (body.closed ==> body.contentEnd < LineCount(c))
  {
    S.Node(if kind == LiteralText then S.LiteralBlock else S.DelimitedBlock, range,
           [Opening(LineAt(c, i).content, body.closed)] + nested
           + if body.closed then [S.Leaf(S.BlockDelimiter, LineAt(c, body.contentEnd).content)] else [])
  }

  function DelimitedBlock(c: Context, i: nat, end: nat, kind: DelimitedKind,
      depth: nat): (r: Result<(S.Node, seq<TextRange>, nat)>)
    requires i < end <= LineCount(c)
    ensures r.Ok? ==> i < r.value.2 <= end
    decreases end - i, 3
  {
    var body := BodyOf(c, i, Content(c, i), end);
    var nested :- if Compound(kind) then NestedBlocks(c, i + 1, body.contentEnd, depth + 1)
      else Ok(Parsed([], [], end));
    var range :- Between(LineAt(c, i).full.start, LineStart(c, body.next));
    Ok((DelimitedNode(c, i, body, kind, range, nested.blocks), nested.texts, body.next))
  }

  function NestedBlocks(c: Context, start: nat, end: nat, depth: nat): Result<Parsed>
    requires start <= end <= LineCount(c)
    decreases end - start, 8
  {
    hide Ready, FlushParagraph, FlushOrphan, PlainNodes, BrokenNodes;
    if Max(c.maxBlockDepth, 1) < depth then Err(DepthLimit(depth))
    else if start == end then Ok(Parsed([], [], end))
    else Sequence(c, Initial(start, false), end, depth)
  }

  // ---------------------------------------------------------------- the line loop

  /** The rest of the loop from a state, then what is still pending. */
  function Sequence(c: Context, st: State, end: nat, depth: nat): Result<Parsed>
    requires end <= LineCount(c)
    decreases if st.line < end then end - st.line else 0, 7
  {
    hide Ready, FlushParagraph, FlushOrphan, PlainNodes, BrokenNodes;
    if end <= st.line then
      var flushed :- FlushParagraph(c, st);
      var done := FlushOrphan(flushed);
      Ok(Parsed(done.blocks, done.texts, done.line))
    else
      var next :- Step(c, st, end, depth);
      Sequence(c, next, end, depth)
  }

  /** One line, after the author and revision lines that may follow a document title. */
  function Step(c: Context, st: State, end: nat, depth: nat): (r: Result<State>)
    requires st.line < end <= LineCount(c)
    ensures r.Ok? ==> st.line < r.value.line <= end
    decreases end - st.line, 6
  {
    var content, full := Content(c, st.line), LineAt(c, st.line).full;
    if st.header.None? || AllBlank(content) then BodyStep(c, st, end, depth)
    else
      var h := st.header.value;
      if h.author && HeaderText(content) && c.grammar.author(content) then
        Commit(st.(header := Some(h.(author := false, revision := true, started := true)),
          blocks := st.blocks + [S.Leaf(S.AuthorLine, full)]),
               st.line + 1, end)
      else if h.revision && HeaderText(content) then
        Commit(st.(header := Some(h.(author := false, revision := false, started := true)),
          blocks := st.blocks + [S.Leaf(S.RevisionLine, full)]),
               st.line + 1, end)
      else BodyStep(c, st.(header := Some(h.(author := false, revision := false))), end, depth)
  }

  function ClassAt(c: Context, st: State, end: nat): LineClass
    requires st.line < end <= LineCount(c)
  {
    hide Ready, PlainNodes, BrokenNodes, Inlines;
    var next := if st.line + 1 < end then Some(Content(c, st.line + 1)) else None;
    Classify(c.grammar, Content(c, st.line), next, AttributePosition(c, st))
  }

  /** What the class of the current line says about it. */
  lemma ClassMeans(c: Context, st: State, end: nat)
    requires st.line < end <= LineCount(c)
    ensures var k, content := ClassAt(c, st, end), Content(c, st.line);
      && (k == Math ==> st.line + 1 < end)
      && (k == Delimited ==> DelimiterOf(content).Some?)
      && (k == ListText ==> MarkerOf(content).Some?)
      && (k == AttributeText ==> AttributeLine(content) && st.header.Some?)
  {
    hide Ready, Content, SetOff, MarkerOf, DelimiterOf, AttributeLine;
  }

  function BodyStep(c: Context, st: State, end: nat, depth: nat): (r: Result<State>)
    requires st.line < end <= LineCount(c)
    ensures r.Ok? ==> st.line < r.value.line <= end
    decreases end - st.line, 5
  {
    ClassMeans(c, st, end);
    var k, i := ClassAt(c, st, end), st.line;
    if k == ParagraphText then
      Commit(BodySeen(st.(paragraph := st.paragraph + [LineAt(c, i)])), i + 1, end)
    else if k in {CommentText, BlankText, TitleLine, Metadata, Anchor, AttributeText} then
      WaitStep(c, k, st, end)
    else if k in {Delimited, ListText} then NestingStep(c, k, st, end, depth)
    else FlatStep(c, k, st, end)
  }

  /** Lines that are, or wait for, a block: metadata, comments, blank lines and attributes. */
  function WaitStep(c: Context, k: LineClass, st: State, end: nat): (r: Result<State>)
    requires st.line < end <= LineCount(c) && k in {CommentText, BlankText, TitleLine, Metadata, Anchor, AttributeText}
    requires k == AttributeText ==> AttributeLine(Content(c, st.line)) && st.header.Some?
    ensures r.Ok? ==> st.line < r.value.line <= end && r.value.header.Some? == st.header.Some?
  {
    var flushed :- FlushParagraph(c, if k in {CommentText, BlankText} then
      st.(header := StopAuthor(st.header)) else st);
    if k == CommentText then CommentStep(c, flushed, end)
    else if k == BlankText then BlankStep(c, flushed, end)
    else if k == AttributeText then AttributeStep(c, flushed, end)
    else MetadataStep(c, k, flushed, end)
  }

  function CommentStep(c: Context, st: State, end: nat): (r: Result<State>)
    requires st.line < end <= LineCount(c)
    ensures r.Ok? ==> st.line < r.value.line <= end && r.value.header.Some? == st.header.Some?
  {
    var comment := S.Leaf(S.CommentLine, LineAt(c, st.line).full);
    var added := if st.pending.range.None? then st.(blocks := st.blocks + [comment])
                 else st.(pending := st.pending.(syntax := st.pending.syntax + [comment]));
    Commit(added, st.line + 1, end)
  }

  function BlankStep(c: Context, st: State, end: nat): (r: Result<State>)
    requires st.line < end <= LineCount(c)
    ensures r.Ok? ==> st.line < r.value.line <= end && r.value.header.Some? == st.header.Some?
  {
    var clear := FlushOrphan(st);
    Commit(clear.(blocks := clear.blocks + [S.Leaf(S.BlankLine, LineAt(c, st.line).full)],
      header := CloseAtBlank(clear.header)), st.line + 1, end)
  }

  /** A document attribute; it belongs to the header while that is open. */
  function AttributeStep(c: Context, st: State, end: nat): (r: Result<State>)
    requires st.line < end <= LineCount(c) && AttributeLine(Content(c, st.line)) && st.header.Some?
    ensures r.Ok? ==> st.line < r.value.line <= end && r.value.header.Some? == st.header.Some?
  {
    var clear := FlushOrphan(st);
    var last := AttributeEnd(c, st.line);
    var range :- Between(LineAt(c, st.line).full.start, LineAt(c, last).full.end);
    var h := st.header.value;
    Commit(clear.(blocks := clear.blocks + [S.Leaf(S.DocumentAttribute, range)],
      header := Some(h.(started := h.started || h.open))), last + 1, end)
  }

  function WaitingKind(k: LineClass): S.Kind {
    if k == Anchor then S.BlockAnchor else if k == TitleLine then S.BlockTitle else S.BlockAttribute
  }

  /** Only an anchor counts as content. */
  function MetadataStep(c: Context, k: LineClass, st: State, end: nat): (r: Result<State>)
    requires st.line < end <= LineCount(c)
    ensures r.Ok? ==> st.line < r.value.line <= end && r.value.header.Some? == st.header.Some?
  {
    var pending :- PushMetadata(st.pending, WaitingKind(k), LineAt(c, st.line).full);
    Commit(st.(pending := pending, sawContent := st.sawContent || k == Anchor, header := CloseAttributes(st.header)),
      st.line + 1, end)
  }

  /** A heading; a well-formed document title opens the header. */
  function HeadingStep(c: Context, st: State, end: nat): (r: Result<State>)
    requires st.line < end <= LineCount(c)
    ensures r.Ok? ==> st.line < r.value.line <= end && r.value.header.Some? == st.header.Some?
  {
    var position := st.header.Some? && !st.sawContent;
    var node := HeadingNode(c, st.line, position);
    var done :- CommitBlock(st, node, [], st.line + 1, end);
    var header := match done.header case None => None
                  case Some(h) => Some(if node.kind == S.DocumentTitle then
                    h.(open := true, started := true, author := true) else h);
    Ok(done.(sawContent := true, header := header))
  }

  /** Blocks that hold no other blocks. */
  function FlatStep(c: Context, k: LineClass, st: State, end: nat): (r: Result<State>)
    requires st.line < end <= LineCount(c)
      && k in {Math, Break, LiteralParagraph, HeadingText, Directive, UnsupportedText}
    requires k == Math ==> st.line + 1 < end
    ensures r.Ok? ==> st.line < r.value.line <= end && r.value.header.Some? == st.header.Some?
  {
    var i := st.line;
    var flushed :- FlushParagraph(c, st);
    if k == Math then
      var (node, next) :- MathBlock(c, i, end);
      var done :- CommitBlock(flushed, node, [], next, end);
      Ok(done.(sawContent := true))
    else if k == HeadingText then HeadingStep(c, flushed, end)
    else
      var (node, next) :- SimpleBlock(c, k, i);
      var done :- CommitBlock(flushed, node, [], next, end);
      Ok(BodySeen(done))
  }

  /** Delimited blocks and lists. */
  function NestingStep(c: Context, k: LineClass, st: State, end: nat, depth: nat): (r: Result<State>)
    requires st.line < end <= LineCount(c)
    requires (k == Delimited && DelimiterOf(Content(c, st.line)).Some?)
      || (k == ListText && MarkerOf(Content(c, st.line)).Some?)
    ensures r.Ok? ==> st.line < r.value.line <= end && r.value.header.Some? == st.header.Some?
    decreases end - st.line, 4
  {
    var i := st.line;
    var flushed :- FlushParagraph(c, st);
    if k == Delimited then
      var (node, texts, next) :- DelimitedBlock(c, i, end, DelimiterOf(Content(c, i)).value, depth);
      var done :- CommitBlock(flushed, node, texts, next, end);
      Ok(BodySeen(done))
    else
      var (items, next) :- ListItems(c, i, end, depth);
      if !Ascending(items) then Err(InvariantBroken)
      else
        var (node, texts) :- ListNode(c, MergeTerms(items), LineStart(c, i));
        var done :- CommitBlock(flushed, node, texts, next, end);
        Ok(BodySeen(done))
  }
}
