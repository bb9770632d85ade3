/** Over every run of the block parser, at every nesting level, no defensive check fires and
    the blocks tile the lines they were parsed from. */
module BlockSafety {
  import opened Text
  import opened Source
  import opened BlockGrammar
  import opened BlockModel
  import opened BlockState
  import opened BlockTiling
  import opened BlockSteps
  import opened BlockLines
  import opened BlockParser
  import opened ListNodes
  import opened ListLines
  import ItemTree
  import opened Delimiter
  import ListTree
  import N = InlineNodes
  import S = Syntax

  /** A parse that does not succeed has met the nesting limit. */
  predicate Safe<T>(c: Context, r: Result<T>) {
    r.Err? ==> r.failure.DepthLimit? && Max(c.maxBlockDepth, 1) < r.failure.actual
  }

  // ---------------------------------------------------------------- delimited blocks

  lemma BodyStops(c: Context, i: nat, kind: DelimitedKind, end: nat)
    requires i < end <= LineCount(c) && StopsAt(c, end)
    requires DelimiterOf(Content(c, i)) == Some(kind) && Compound(kind)
    ensures StopsAt(c, BodyOf(c, i, Content(c, i), end).contentEnd)
  {
    hide Ready, Content, DelimiterOf;
    CompoundIsFlush(Content(c, i));
    var body := BodyOf(c, i, Content(c, i), end);
    if !body.closed && body.contentEnd < end {
      var content := Content(c, body.contentEnd);
      assert content[0..1][0] == '=';
    }
  }

  /** What is nested in a delimited block: the blocks of its body, or nothing. */
  ghost predicate NestedFits(c: Context, kind: DelimitedKind, i: nat, body: Body, nested: Parsed) {
    if Compound(kind) then
      && Tiled(c, nested.blocks, i + 1, body.contentEnd, body.contentEnd)
      && (S.AllWellNested(c.document.source, nested.blocks) <==> AllLand(c, nested.texts))
    else nested.blocks == [] && nested.texts == []
  }

  /** The nodes of a body stand in a row between its delimiters. */
  lemma NestedRow(c: Context, kind: DelimitedKind, i: nat, body: Body, nested: Parsed)
    requires NestedFits(c, kind, i, body, nested) && i < body.contentEnd <= LineCount(c)
    ensures N.Row(nested.blocks, LineStart(c, i + 1), LineStart(c, body.contentEnd))
    ensures S.AllWellNested(c.document.source, nested.blocks) <==> AllLand(c, nested.texts)
  {
    hide Ready, LineStart, Tiled, N.Row, Lands;
    LinesAscend(c, i + 1, body.contentEnd);
    if Compound(kind) {
      TiledRow(c, nested.blocks, i + 1, body.contentEnd, body.contentEnd);
    } else {
      N.EmptyRow(c.document.source, Span(c, i + 1, body.contentEnd));
    }
  }

  lemma ClosingRow(c: Context, body: Body)
    requires body.contentEnd <= body.next <= LineCount(c)
    requires body.next == if body.closed then body.contentEnd + 1 else body.contentEnd
    ensures var closing := if body.closed then [S.Leaf(S.BlockDelimiter, LineAt(c, body.contentEnd).content)] else [];
      && LineStart(c, body.contentEnd) <= LineStart(c, body.next)
      && N.Row(closing, LineStart(c, body.contentEnd), LineStart(c, body.next))
         && S.AllWellNested(c.document.source, closing)
  {
    hide Ready, LineStart, N.Row, S.AllWellNested, TextOf;
    LinesAscend(c, body.contentEnd, body.next);
    if body.closed {
      var l := LineAt(c, body.contentEnd).content;
      ContentIsText(c, body.contentEnd);
      N.LeafRow(c.document.source, S.BlockDelimiter, l);
      RowWithin([S.Leaf(S.BlockDelimiter, l)], l.start, l.end, LineStart(c, body.contentEnd), LineStart(c, body.next));
    } else {
      N.EmptyRow(c.document.source, Span(c, body.contentEnd, body.next));
    }
  }

  lemma DelimitedIsMade(c: Context, i: nat, kind: DelimitedKind, end: nat)
    requires i < end <= LineCount(c) && DelimiterOf(Content(c, i)) == Some(kind)
    ensures MadeOf(c, if kind == LiteralText then S.LiteralBlock
      else S.DelimitedBlock, i, BodyOf(c, i, Content(c, i), end).next, end)
  {
    hide Ready, Content, DelimiterOf, StartsBlank;
  }

  lemma DelimitedOpens(c: Context, i: nat, kind: DelimitedKind, nested: Parsed, end: nat)
    requires i < end <= LineCount(c) && DelimiterOf(Content(c, i)) == Some(kind)
    requires NestedFits(c, kind, i, BodyOf(c, i, Content(c, i), end), nested)
    ensures var body := BodyOf(c, i, Content(c, i), end);
      Opens(c, DelimitedNode(c, i, body, kind, Span(c, i, body.next), nested.blocks), i, i, body.next, end)
  {
    hide Ready, Content, DelimiterOf, MadeOf, Tiled, WaitingLine, LineStart, AllLand, S.AllWellNested;
    var body := BodyOf(c, i, Content(c, i), end);
    var n := DelimitedNode(c, i, body, kind, Span(c, i, body.next), nested.blocks);
    DelimitedIsMade(c, i, kind, end);
    assert n.children[..0] == [];
    if Compound(kind) {
      var inner := n.children[1..];
      if body.closed {
        assert Init(inner) == nested.blocks;
      } else {
        assert inner == nested.blocks;
      }
    }
  }

  lemma DelimitedNodeIsBlock(c: Context, i: nat, kind: DelimitedKind, nested: Parsed, end: nat)
    requires i < end <= LineCount(c) && DelimiterOf(Content(c, i)) == Some(kind)
    requires NestedFits(c, kind, i, BodyOf(c, i, Content(c, i), end), nested)
    ensures var body := BodyOf(c, i, Content(c, i), end);
      var n := DelimitedNode(c, i, body, kind, Span(c, i, body.next), nested.blocks);
      && BlockOver(c, n, i, body.next, end)
      && (S.AllWellNested(c.document.source, n.children) <==> AllLand(c, nested.texts))
  {
    hide Ready, Content, DelimiterOf, BodyOf, NestedFits, Opens, N.Row, LineStart, AllLand, S.AllWellNested,
      TextOf, Opening;
    var v, body, opener := c.document.source, BodyOf(c, i, Content(c, i), end), LineAt(c, i).content;
    var opening := [Opening(opener, body.closed)];
    var closing := if body.closed then [S.Leaf(S.BlockDelimiter, LineAt(c, body.contentEnd).content)] else [];
    ContentIsText(c, i);
    LinesAscend(c, i, i + 1);
    OpeningRow(v, opener, body.closed);
    NestedRow(c, kind, i, body, nested);
    LinesAscend(c, i + 1, body.contentEnd);
    ClosingRow(c, body);
    N.RowGap(opening, nested.blocks, opener.start, opener.end, LineStart(c, i + 1), LineStart(c, body.contentEnd));
    N.RowAppend(opening + nested.blocks, closing, opener.start, LineStart(c, body.contentEnd), LineStart(c, body.next));
    N.WellNestedAppend(v, opening + nested.blocks, closing);
    N.WellNestedAppend(v, opening, nested.blocks);
    DelimitedOpens(c, i, kind, nested, end);
  }

  lemma {:induction false} DelimitedKeeps(c: Context, i: nat, end: nat, kind: DelimitedKind, depth: nat)
    requires i < end <= LineCount(c) && StopsAt(c, end) && DelimiterOf(Content(c, i)) == Some(kind)
    ensures var r := DelimitedBlock(c, i, end, kind, depth);
      && Safe(c, r)
      && (r.Ok? ==> BlockOver(c, r.value.0, i, r.value.2, end) && r.value.0.range == Span(c, i, r.value.2)
                    && r.value.2 == BodyOf(c, i, Content(c, i), end).next
                    && (S.AllWellNested(c.document.source, r.value.0.children) <==> AllLand(c, r.value.1)))
    decreases end - i, 3
  {
    hide Ready, Content, DelimiterOf, BodyOf, Opens, N.Row, LineStart, AllLand, S.AllWellNested, StopsAt, NestedBlocks,
      DelimitedNode, Tiled;
    var body := BodyOf(c, i, Content(c, i), end);
    LineSpan(c, i);
    if Compound(kind) {
      BodyStops(c, i, kind, end);
      NestedKeeps(c, i + 1, body.contentEnd, depth + 1);
      var nested := NestedBlocks(c, i + 1, body.contentEnd, depth + 1);
      if nested.Ok? {
        DelimitedNodeIsBlock(c, i, kind, nested.value, end);
      }
    } else {
      NoTexts(c);
      DelimitedNodeIsBlock(c, i, kind, Parsed([], [], end), end);
    }
  }

  lemma {:induction false} NestedKeeps(c: Context, start: nat, end: nat, depth: nat)
    requires start <= end && StopsAt(c, end)
    ensures var r := NestedBlocks(c, start, end, depth);
      && Safe(c, r)
      && (r.Ok? ==> Tiled(c, r.value.blocks, start, end, end)
                    && (S.AllWellNested(c.document.source, r.value.blocks) <==> AllLand(c, r.value.texts)))
    decreases end - start, 8
  {
    hide Ready, Tiled, Lands, StopsAt, Sequence, Inv, LineCount;
    EndKnown(c, end);
    if start == end {
      TiledNothing(c, start, end, end);
    } else if depth <= Max(c.maxBlockDepth, 1) {
      InitialInv(c, start, false, end);
      SequenceKeeps(c, Initial(start, false), start, end, depth);
    }
  }

  lemma InitialInv(c: Context, start: nat, root: bool, end: nat)
    requires start <= end <= LineCount(c)
    ensures Inv(c, Initial(start, root), start, end)
  {
    hide Ready, Lands;
    TiledNothing(c, start, start, end);
    NothingPends(c, start);
    NoParagraph(c, start);
  }

  // ---------------------------------------------------------------- lists

  lemma {:induction false} AttachmentKeeps(c: Context, i: nat, end: nat, depth: nat)
    requires StopsAt(c, end) && end <= LineCount(c)
    ensures var r := Attachment(c, i, end, depth);
      && Safe(c, r) && (r.Ok? && r.value.Some? ==> r.value.value.0 == LineStart(c, r.value.value.1))
      && (r.Ok? && r.value.None? ==> end <= i || AllBlank(Content(c, i)))
      && (r.Ok? && r.value.Some? ==>
            && i < end && !AllBlank(Content(c, i)) && ContinuationStart(c, i, end) < r.value.value.1
            && AttachedLines(c, ContinuationStart(c, i, end), r.value.value.1, end))
    decreases if i < end then end - i else 0, if i < end then 4 else 1
  {
    hide Ready, Content, DelimiterOf, MarkerOf, LineStart, AllBlank, StopsAt, ContinuationStart, DelimitedBlock,
      ListItems, BlockOver, ItemsChain, ItemsOver, AttachedLines, BodyOf, ListEnds, ListTree.Forest, ListTree.InOrder,
      Ascending, MergeTerms;
    if i < end && !AllBlank(Content(c, i)) {
      var k := ContinuationStart(c, i, end);
      if DelimiterOf(Content(c, k)).Some? {
        DelimitedKeeps(c, k, end, DelimiterOf(Content(c, k)).value, depth + 1);
        AttachedBody(c, k, end);
      } else if MarkerOf(Content(c, k)).Some? {
        ListItemsKeep(c, k, end, depth);
        var r := ListItems(c, k, end, depth);
        if r.Ok? {
          ItemsSome(c, k, end, depth);
          ItemsEnd(c, k, end, depth);
          RootsEnd(c, r.value.0, LineStart(c, k), LineStart(c, r.value.1));
          AttachedList(c, r.value.0, k, r.value.1, end);
        }
      } else {
        LineSpan(c, k);
        AttachedLine(c, k, end);
      }
    }
  }

  lemma ItemsSome(c: Context, i: nat, end: nat, depth: nat)
    requires i < end <= LineCount(c) && MarkerOf(Content(c, i)).Some? && ListItems(c, i, end, depth).Ok?
    ensures ListItems(c, i, end, depth).value.0 != []
  {
    hide ListItemAt;
  }

  /** The last root list ends where the items end. */
  lemma RootsEnd(c: Context, items: seq<ListItem>, from: nat, end: nat)
    requires ItemsChain(c, items, from, end) && items != []
    ensures Ascending(items)
    ensures var flat := MergeTerms(items);
      && flat != [] && ListTree.InOrder(flat) && ListTree.Forest(flat, 0) != []
      && ListTree.Forest(flat, 0)[|ListTree.Forest(flat, 0)| - 1].range.end == end
  {
    hide ItemFits, ListTree.Forest, ListTree.InOrder, MergeTerms, Ascending, ListTree.ListsFit;
    ChainAscends(c, items, from, end);
    MergeKeepsChain(c, items, from, end);
    var flat := MergeTerms(items);
    ChainAscends(c, flat, from, end);
    AscendingIsInOrder(flat);
    ListTree.ForestFits(flat, 0, from);
  }

  lemma {:induction false} AttachmentsKeep(c: Context, i: nat, end: nat, depth: nat, stop: nat)
    requires i <= end <= LineCount(c) && StopsAt(c, end) && stop == LineStart(c, i)
    ensures var r := Attachments(c, i, end, depth, stop);
      Safe(c, r) && (r.Ok? ==> r.value.0 == LineStart(c, r.value.1) && AttachedOver(c, i, r.value.1, end))
    decreases end - i, 2
  {
    hide Ready, Content, LineStart, StopsAt, Attachment, AttachedOver, AttachedLines, BehindMetadata, ContinuationStart,
      AllBlank;
    if i < LineCount(c) && Content(c, i) == "+" {
      AttachmentKeeps(c, i + 1, end, depth);
      var a := Attachment(c, i + 1, end, depth);
      if a.Ok? && a.value.Some? {
        AttachmentsKeep(c, a.value.value.1, end, depth, a.value.value.0);
        StartIsBehind(c, i + 1, end);
        var r := Attachments(c, i, end, depth, stop);
        if r.Ok? {
          AttachedStep(c, i, ContinuationStart(c, i + 1, end), a.value.value.1, r.value.1, end);
        }
      } else if a.Ok? {
        NothingAttached(c, i, end);
      }
    } else {
      NothingAttached(c, i, end);
    }
  }

  lemma {:induction false} ListItemKeeps(c: Context, i: nat, end: nat, depth: nat)
    requires i < end <= LineCount(c) && StopsAt(c, end) && MarkerOf(Content(c, i)).Some?
    ensures var r := ListItemAt(c, i, end, depth);
      && Safe(c, r)
      && (r.Ok? ==> ItemFits(c, r.value.0) && r.value.0.range == Span(c, i, r.value.1)
                    && ItemOver(c, r.value.0, i, r.value.1, end))
    decreases end - i, 1
  {
    hide Ready, Content, LineStart, StopsAt, PrincipalItem, Attachments, ItemFits, MarkerOf, AttachedOver, ItemOver,
      Reads;
    PrincipalItemFits(c, i, end);
    PrincipalReads(c, i, end);
    var (item, next) := PrincipalItem(c, i, end).value;
    AttachmentsKeep(c, next, end, depth, item.range.end);
    var r := Attachments(c, next, end, depth, item.range.end);
    if r.Ok? {
      LinesAscend(c, i, next);
      LinesAscend(c, next, r.value.1);
      SpanIsText(c, i, r.value.1);
      WiderFits(c, item, Span(c, i, r.value.1));
      ItemIs(c, item, i, next, r.value.1, end);
    }
  }

  /** An item keeps its parts when it reaches further. */
  lemma WiderFits(c: Context, f: ListItem, range: TextRange)
    requires ItemFits(c, f) && range.start == f.range.start && f.range.end <= range.end
      && TextOf(c.document.source, range).Some?
    ensures ItemFits(c, f.(range := range))
  {
    hide TermsFit;
  }

  lemma {:induction false} ListItemsKeep(c: Context, i: nat, end: nat, depth: nat)
    requires i <= end <= LineCount(c) && StopsAt(c, end)
    ensures var r := ListItems(c, i, end, depth);
      && Safe(c, r)
      && (r.Ok? ==> ItemsChain(c, r.value.0, LineStart(c, i), LineStart(c, r.value.1))
                    && ItemsOver(c, r.value.0, i, r.value.1, end))
    decreases end - i, 3
  {
    hide Ready, Content, LineStart, StopsAt, ItemFits, MarkerOf, ListItemAt, ItemOver, ItemsOver;
    if i == end || MarkerOf(Content(c, i)).None? {
      NoItems(c, i, end);
    } else {
      ListItemKeeps(c, i, end, depth);
      var r := ListItemAt(c, i, end, depth);
      if r.Ok? {
        var (item, next) := r.value;
        ListItemsKeep(c, next, end, depth);
        var rest := ListItems(c, next, end, depth);
        if rest.Ok? {
          assert ([item] + rest.value.0)[1..] == rest.value.0;
          ItemsAppend(c, item, rest.value.0, i, next, rest.value.1, end);
        }
      }
    }
  }

  lemma ListIsBlock(c: Context, i: nat, items: seq<ListItem>, next: nat, end: nat)
    requires i < next <= LineCount(c) && Is(c, i, ListText) && ListEnds(c, next, end) && items != []
    requires ItemsChain(c, items, LineStart(c, i), LineStart(c, next)) && ItemsOver(c, items, i, next, end)
    ensures Ascending(items)
    ensures var r := ListNode(c, MergeTerms(items), LineStart(c, i));
      && r.Ok? && BlockOver(c, r.value.0, i, next, end)
      && (S.AllWellNested(c.document.source, r.value.0.children) <==> AllLand(c, r.value.1))
  {
    hide Ready, Content, LineStart, ItemFits, MarkerOf, ListNode, MergeTerms, Ascending, N.Row, AllLand,
      S.AllWellNested, ListTree.Forest, Is, ListEnds, ListHolds;
    ChainAscends(c, items, LineStart(c, i), LineStart(c, next));
    MergeKeepsChain(c, items, LineStart(c, i), LineStart(c, next));
    MergeSome(items);
    ListNodeNests(c, MergeTerms(items), LineStart(c, i), LineStart(c, next));
    ListShows(c, items, i, next, end);
    RowIsBlock(c, ListNode(c, MergeTerms(items), LineStart(c, i)).value.0, i, next, end);
  }

  /** The node of the items holds their tree. */
  lemma ListShows(c: Context, items: seq<ListItem>, i: nat, next: nat, end: nat)
    requires i <= next <= LineCount(c) && ItemsOver(c, items, i, next, end) && Ascending(items) && items != []
    requires ListNode(c, MergeTerms(items), LineStart(c, i)).Ok?
    ensures ListHolds(c, ListNode(c, MergeTerms(items), LineStart(c, i)).value.0.children, i, next, end)
  {
    hide Ready, LineStart, ItemsOver, Shares, MergeTerms, Ascending, ListTree.Forest, ListTree.InOrder, ItemTree.TreeOf;
    MergeShares(items);
    AscendingIsInOrder(MergeTerms(items));
    ItemTree.ForestIsTree(c, MergeTerms(items), 0);
  }

  /** Items are taken as long as lines start one. */
  lemma {:induction false} ItemsEnd(c: Context, i: nat, end: nat, depth: nat)
    requires i <= end <= LineCount(c) && ListItems(c, i, end, depth).Ok?
    ensures ListEnds(c, ListItems(c, i, end, depth).value.1, end)
    decreases end - i
  {
    hide Ready, Content, MarkerOf, ListItemAt;
    if i < end && MarkerOf(Content(c, i)).Some? {
      ItemsEnd(c, ListItemAt(c, i, end, depth).value.1, end, depth);
    }
  }

  lemma MergeSome(items: seq<ListItem>)
    requires Ascending(items) && items != []
    ensures MergeTerms(items) != []
  {
  }

  // ---------------------------------------------------------------- the line loop

  lemma {:induction false} NestingStepKeeps(c: Context, k: LineClass, st: State, start: nat, end: nat, depth: nat)
    requires st.line < end <= LineCount(c) && Inv(c, st, start, end) && StopsAt(c, end) && Quiet(st)
    requires (k == Delimited && DelimiterOf(Content(c, st.line)).Some?)
      || (k == ListText && MarkerOf(Content(c, st.line)).Some?)
    requires k == ListText ==> Is(c, st.line, ListText)
    requires ParagraphEnds(c, st.line, end)
    ensures var r := NestingStep(c, k, st, end, depth);
      Safe(c, r) && (r.Ok? ==> Inv(c, r.value, start, end) && r.value.header.Some? == st.header.Some?)
    decreases end - st.line, 4
  {
    hide Ready, Inv, Content, StopsAt, DelimiterOf, MarkerOf, LineStart, FlushParagraph, CommitBlock, DelimitedBlock,
      ListItems, ListNode, BlockOver, S.AllWellNested, AllLand, LineCount, ItemsChain, ItemsOver, Ascending,
      MergeTerms, Is;
    var i := st.line;
    FlushParagraphKeeps(c, st, start, end);
    var flushed := FlushParagraph(c, st).value;
    if k == Delimited {
      DelimitedKeeps(c, i, end, DelimiterOf(Content(c, i)).value, depth);
      var r := DelimitedBlock(c, i, end, DelimiterOf(Content(c, i)).value, depth);
      if r.Ok? {
        CommitBlockKeeps(c, flushed, r.value.0, r.value.1, start, r.value.2, end);
        var done := CommitBlock(flushed, r.value.0, r.value.1, r.value.2, end).value;
        HeaderKeeps(c, done, CloseAttributes(done.header), true, start, end);
      }
    } else {
      ListItemsKeep(c, i, end, depth);
      var r := ListItems(c, i, end, depth);
      if r.Ok? {
        var (items, next) := r.value;
        ItemsSome(c, i, end, depth);
        ItemsEnd(c, i, end, depth);
        ListIsBlock(c, i, items, next, end);
        var l := ListNode(c, MergeTerms(items), LineStart(c, i)).value;
        CommitBlockKeeps(c, flushed, l.0, l.1, start, next, end);
        var done := CommitBlock(flushed, l.0, l.1, next, end).value;
        HeaderKeeps(c, done, CloseAttributes(done.header), true, start, end);
      }
    }
  }

  lemma {:induction false} BodyStepKeeps(c: Context, st: State, start: nat, end: nat, depth: nat)
    requires st.line < end <= LineCount(c) && Inv(c, st, start, end) && StopsAt(c, end)
    requires Quiet(st) || AllBlank(Content(c, st.line))
    requires st.header.Some? ==> end == LineCount(c)
    ensures var r := BodyStep(c, st, end, depth);
      Safe(c, r) && (r.Ok? ==> Inv(c, r.value, start, end) && r.value.header.Some? == st.header.Some?)
    decreases end - st.line, 5
  {
    hide Ready, Inv, Content, StopsAt, ClassAt, AllBlank, LineCount, FlatStep, NestingStep, WaitStep, LineAt,
      DelimiterOf, MarkerOf, AttributeLine, Is, HasFormOf;
    ClassFacts(c, st, end);
    ClassMeans(c, st, end);
    var k := ClassAt(c, st, end);
    if k == ParagraphText {
      ParagraphStepKeeps(c, st, start, end);
    } else if k in {CommentText, BlankText, TitleLine, Metadata, Anchor, AttributeText} {
      WaitStepKeeps(c, k, st, start, end);
    } else if k in {Delimited, ListText} {
      NestingStepKeeps(c, k, st, start, end, depth);
    } else {
      FlatStepKeeps(c, k, st, start, end);
    }
  }

  lemma {:induction false} StepKeeps(c: Context, st: State, start: nat, end: nat, depth: nat)
    requires st.line < end <= LineCount(c) && Inv(c, st, start, end) && StopsAt(c, end)
    requires st.header.Some? ==> end == LineCount(c)
    ensures var r := Step(c, st, end, depth);
      Safe(c, r) && (r.Ok? ==> Inv(c, r.value, start, end) && r.value.header.Some? == st.header.Some?)
    decreases end - st.line, 6
  {
    hide Ready, Inv, Content, StopsAt, AllBlank, LineCount, BodyStep, HeaderText;
    var content := Content(c, st.line);
    if st.header.None? || AllBlank(content) {
      BodyStepKeeps(c, st, start, end, depth);
    } else {
      var h := st.header.value;
      if h.author && HeaderText(content) && c.grammar.author(content) {
        HeaderLineKeeps(c, st, S.AuthorLine, h.(author := false, revision := true, started := true), start, end);
      } else if h.revision && HeaderText(content) {
        HeaderLineKeeps(c, st, S.RevisionLine, h.(author := false, revision := false, started := true), start, end);
      } else {
        HeaderKeeps(c, st, Some(h.(author := false, revision := false)), st.sawContent, start, end);
        BodyStepKeeps(c, st.(header := Some(h.(author := false, revision := false))), start, end, depth);
      }
    }
  }

  /** From any state that keeps the invariant, the rest of the loop fails at most on the nesting
      limit, and leaves blocks that tile all the lines. */
  lemma {:induction false} SequenceKeeps(c: Context, st: State, start: nat, end: nat, depth: nat)
    requires end <= LineCount(c) && Inv(c, st, start, end) && StopsAt(c, end)
    requires st.header.Some? ==> end == LineCount(c)
    ensures var r := Sequence(c, st, end, depth);
      && Safe(c, r)
      && (r.Ok? ==> Tiled(c, r.value.blocks, start, end, end)
                    && (S.AllWellNested(c.document.source, r.value.blocks) <==> AllLand(c, r.value.texts)))
    decreases if st.line < end then end - st.line else 0, 7
  {
    hide Ready, Inv, StopsAt, LineCount, Step, FlushParagraph, FlushOrphan, Tiled, AllLand, S.AllWellNested;
    EndInside(c, st, start, end);
    if end <= st.line {
      FlushParagraphKeeps(c, st, start, end);
      var flushed := FlushParagraph(c, st).value;
      FlushOrphanKeeps(c, flushed, start, end);
      AllInBlocks(c, FlushOrphan(flushed), start, end);
    } else {
      StepKeeps(c, st, start, end, depth);
      var r := Step(c, st, end, depth);
      if r.Ok? {
        SequenceKeeps(c, r.value, start, end, depth);
      }
    }
  }

  lemma AllInBlocks(c: Context, st: State, start: nat, end: nat)
    requires Inv(c, st, start, end) && st.line == end && st.paragraph == [] && st.pending == NOTHING
    ensures Tiled(c, st.blocks, start, end, end)
    ensures S.AllWellNested(c.document.source, st.blocks) <==> AllLand(c, st.texts)
  {
    hide Ready, Tiled, AllLand, S.AllWellNested, PendingFits, ParagraphFits;
  }
}
