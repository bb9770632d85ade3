/** Where titles, author and revision lines may stand: a title before all content, an author line
    directly behind it, a revision line directly behind that. */
module BlockHeader {
  import opened Text
  import opened Source
  import opened BlockGrammar
  import opened BlockModel
  import opened BlockState
  import opened BlockParser
  import opened Delimiter
  import opened Documents
  import S = Syntax

  /** Blocks that are content of the document: a title may not follow them. */
  predicate IsContent(k: S.Kind) {
    || k.DocumentTitle? || k.Heading? || k.MalformedHeading? || k.Paragraph? || k.ThematicBreak? || k.PageBreak?
    || k.LiteralBlock? || k.DelimitedBlock? || k.List? || k.MathBlock?
  }

  predicate NoContent(s: seq<S.Node>) { forall i :: 0 <= i < |s| ==> !IsContent(s[i].kind) }

  predicate InPlace(s: seq<S.Node>, i: nat)
    requires i < |s|
  {
    && (s[i].kind.DocumentTitle? ==> NoContent(s[..i]))
    && (s[i].kind.AuthorLine? ==> 0 < i && s[i - 1].kind.DocumentTitle?)
    && (s[i].kind.RevisionLine? ==> 0 < i && s[i - 1].kind.AuthorLine?)
  }

  predicate HeaderOrder(s: seq<S.Node>) { forall i :: 0 <= i < |s| ==> InPlace(s, i) }

  predicate EndsIn(s: seq<S.Node>, k: S.Kind) { s != [] && s[|s| - 1].kind == k }

  predicate Expects(h: Option<Header>) { h.Some? && (h.value.author || h.value.revision) }

  /** Between steps: what stands is in order; an author line is expected only behind a title and a
      revision line only behind an author line; a title only before all content. */
  predicate HeaderFits(st: State) {
    && HeaderOrder(st.blocks)
    && (Expects(st.header) ==> st.paragraph == [])
    && (st.header.Some? && st.header.value.author ==> EndsIn(st.blocks, S.DocumentTitle))
    && (st.header.Some? && st.header.value.revision ==> EndsIn(st.blocks, S.AuthorLine))
    && (!st.sawContent ==> st.paragraph == [] && NoContent(st.blocks))
  }

  // ---------------------------------------------------------------- lists of blocks

  predicate SameKinds(a: seq<S.Node>, b: seq<S.Node>) {
    |a| == |b| && forall i :: 0 <= i < |a| ==> a[i].kind == b[i].kind
  }

  lemma SameOrder(a: seq<S.Node>, b: seq<S.Node>)
    requires SameKinds(a, b)
    ensures HeaderOrder(a) <==> HeaderOrder(b)
    ensures NoContent(a) <==> NoContent(b)
  {
    forall i | 0 <= i < |a| ensures InPlace(a, i) <==> InPlace(b, i) {
      assert forall j :: 0 <= j < i ==> a[..i][j].kind == b[..i][j].kind;
    }
  }

  lemma OrderAppend(s: seq<S.Node>, n: S.Node)
    requires HeaderOrder(s)
    requires n.kind.DocumentTitle? ==> NoContent(s)
    requires n.kind.AuthorLine? ==> EndsIn(s, S.DocumentTitle)
    requires n.kind.RevisionLine? ==> EndsIn(s, S.AuthorLine)
    ensures HeaderOrder(s + [n])
    ensures NoContent(s + [n]) <==> NoContent(s) && !IsContent(n.kind)
  {
    var t := s + [n];
    assert forall i :: 0 <= i < |s| ==> t[i] == s[i];
    assert t[|s|] == n;
    forall i | 0 <= i < |t| ensures InPlace(t, i) {
      if i < |s| {
        assert InPlace(s, i) && t[..i] == s[..i];
      } else {
        assert t[..i] == s;
      }
    }
  }

  predicate Plain(k: S.Kind) { !k.DocumentTitle? && !k.AuthorLine? && !k.RevisionLine? }

  lemma {:induction false} OrderAppendAll(s: seq<S.Node>, more: seq<S.Node>)
    requires HeaderOrder(s) && forall i :: 0 <= i < |more| ==> Plain(more[i].kind)
    ensures HeaderOrder(s + more)
    ensures (forall i :: 0 <= i < |more| ==> !IsContent(more[i].kind)) && NoContent(s) ==> NoContent(s + more)
    decreases |more|
  {
    if more == [] {
      assert s + more == s;
    } else {
      OrderAppend(s, more[0]);
      OrderAppendAll(s + [more[0]], more[1..]);
      assert s + [more[0]] + more[1..] == s + more;
    }
  }

  // ---------------------------------------------------------------- the operations

  lemma AttachKinds(st: State)
    ensures AttachPending(st).Ok? ==>
      && var r := AttachPending(st).value;
         SameKinds(r.blocks, st.blocks) && r == st.(pending := r.pending, blocks := r.blocks)
  {
  }

  /** Waiting lines are no titles, author or revision lines, and no content. */
  predicate Waits(s: seq<S.Node>) { forall i :: 0 <= i < |s| ==> Plain(s[i].kind) && !IsContent(s[i].kind) }

  predicate Fits(st: State) { HeaderFits(st) && Waits(st.pending.syntax) }

  lemma FlushKinds(c: Context, st: State)
    requires Fits(st)
    ensures FlushParagraph(c, st).Ok? ==>
      Fits(FlushParagraph(c, st).value) && FlushParagraph(c, st).value.paragraph == []
    ensures FlushParagraph(c, st).Ok? ==>
      var r := FlushParagraph(c, st).value;
      r.header == st.header && r.sawContent == st.sawContent && (st.paragraph == [] ==> r.blocks == st.blocks)
  {
    hide Ready, BrokenNodes, AdmonitionOffset, AttachPending, HeaderOrder, NoContent, SameKinds;
    if st.paragraph != [] && ParagraphNode(c, st.paragraph).Ok? {
      var (node, body) := ParagraphNode(c, st.paragraph).value;
      var added := st.(paragraph := [], blocks := st.blocks + [node], texts := st.texts + [body]);
      OrderAppend(st.blocks, node);
      if AttachPending(added).Ok? {
        AttachFits(added);
      }
    }
  }

  lemma AttachFits(st: State)
    requires HeaderOrder(st.blocks) && Waits(st.pending.syntax) && AttachPending(st).Ok?
    ensures var r := AttachPending(st).value;
      && HeaderOrder(r.blocks) && (NoContent(r.blocks) <==> NoContent(st.blocks)) && Waits(r.pending.syntax)
      && (forall k :: EndsIn(r.blocks, k) <==> EndsIn(st.blocks, k))
      && r == st.(pending := r.pending, blocks := r.blocks)
  {
    AttachKinds(st);
    SameOrder(AttachPending(st).value.blocks, st.blocks);
  }

  lemma OrphanKinds(st: State)
    requires Fits(st) && !Expects(st.header)
    ensures Fits(FlushOrphan(st))
      && FlushOrphan(st) == st.(pending := FlushOrphan(st).pending, blocks := FlushOrphan(st).blocks)
  {
    hide HeaderOrder, NoContent;
    if st.pending.range.Some? {
      var r := st.pending.range.value;
      var k := Attached(st.pending.syntax, r.end);
      var orphan := S.Node(S.Unsupported, r, [S.Node(S.Unknown, r, st.pending.syntax[..k])]);
      OrderAppend(st.blocks, orphan);
      OrderAppendAll(st.blocks + [orphan], st.pending.syntax[k..]);
    }
  }

  lemma BlockFits(st: State, node: S.Node, texts: seq<TextRange>, next: nat, end: nat)
    requires Fits(st) && !Expects(st.header) && st.paragraph == []
    requires !node.kind.AuthorLine? && !node.kind.RevisionLine? && (node.kind.DocumentTitle? ==> NoContent(st.blocks))
    ensures CommitBlock(st, node, texts, next, end).Ok? ==>
      var r := CommitBlock(st, node, texts, next, end).value;
      && HeaderOrder(r.blocks) && EndsIn(r.blocks, node.kind) && Waits(r.pending.syntax) && r.paragraph == []
      && r.header == st.header && r.sawContent == st.sawContent
      && (NoContent(r.blocks) <==> NoContent(st.blocks) && !IsContent(node.kind))
  {
    hide HeaderOrder, NoContent, Waits, AttachPending;
    OrderAppend(st.blocks, node);
    var moved := Commit(st, next, end);
    if moved.Ok? {
      var added := moved.value.(blocks := st.blocks + [node], texts := st.texts + texts);
      if AttachPending(added).Ok? {
        AttachFits(added);
      }
    }
  }

  lemma PlainFits(st: State, node: S.Node)
    requires Fits(st) && !Expects(st.header) && st.paragraph == [] && Plain(node.kind) && !IsContent(node.kind)
    ensures Fits(st.(blocks := st.blocks + [node]))
  {
    hide HeaderOrder, NoContent, Waits;
    OrderAppend(st.blocks, node);
  }

  // ---------------------------------------------------------------- the steps

  lemma CommentFits(c: Context, st: State, end: nat)
    requires st.line < end <= LineCount(c) && Fits(st) && !Expects(st.header) && st.paragraph == []
    ensures CommentStep(c, st, end).Ok? ==> Fits(CommentStep(c, st, end).value)
  {
    hide Ready, HeaderOrder, NoContent, LineAt;
    PlainFits(st, S.Leaf(S.CommentLine, LineAt(c, st.line).full));
  }

  lemma BlankFits(c: Context, st: State, end: nat)
    requires st.line < end <= LineCount(c) && Fits(st) && !Expects(st.header) && st.paragraph == []
    ensures BlankStep(c, st, end).Ok? ==> Fits(BlankStep(c, st, end).value)
  {
    hide Ready, HeaderOrder, NoContent, LineAt, FlushOrphan, Waits;
    OrphanKinds(st);
    PlainFits(FlushOrphan(st), S.Leaf(S.BlankLine, LineAt(c, st.line).full));
  }

  lemma AttributeFits(c: Context, st: State, end: nat)
    requires st.line < end <= LineCount(c) && AttributeLine(Content(c, st.line)) && st.header.Some?
    requires Fits(st) && !Expects(st.header) && st.paragraph == []
    ensures AttributeStep(c, st, end).Ok? ==> Fits(AttributeStep(c, st, end).value)
  {
    hide Ready, HeaderOrder, NoContent, LineAt, FlushOrphan, Waits, AttributeEnd, Content;
    OrphanKinds(st);
    var range := Between(LineAt(c, st.line).full.start, LineAt(c, AttributeEnd(c, st.line)).full.end);
    if range.Ok? {
      PlainFits(FlushOrphan(st), S.Leaf(S.DocumentAttribute, range.value));
    }
  }

  lemma MetadataFits(c: Context, k: LineClass, st: State, end: nat)
    requires st.line < end <= LineCount(c) && Fits(st) && !Expects(st.header) && st.paragraph == []
    ensures MetadataStep(c, k, st, end).Ok? ==> Fits(MetadataStep(c, k, st, end).value)
  {
    hide Ready, HeaderOrder, NoContent, LineAt;
  }

  lemma WaitFits(c: Context, k: LineClass, st: State, end: nat)
    requires st.line < end <= LineCount(c) && k in {CommentText, BlankText, TitleLine, Metadata, Anchor, AttributeText}
    requires k == AttributeText ==> AttributeLine(Content(c, st.line)) && st.header.Some?
    requires Fits(st) && (Expects(st.header) ==> k == BlankText)
    ensures WaitStep(c, k, st, end).Ok? ==> Fits(WaitStep(c, k, st, end).value)
  {
    hide Ready, HeaderOrder, NoContent, FlushParagraph, Waits, CommentStep, BlankStep, AttributeStep,
      MetadataStep, Content,
      AttributeLine;
    var stopped := if k in {CommentText, BlankText} then st.(header := StopAuthor(st.header)) else st;
    FlushKinds(c, stopped);
    var flushed := FlushParagraph(c, stopped);
    if flushed.Ok? {
      if k == CommentText {
        CommentFits(c, flushed.value, end);
      } else if k == BlankText {
        BlankFits(c, flushed.value, end);
      } else if k == AttributeText {
        AttributeFits(c, flushed.value, end);
      } else {
        MetadataFits(c, k, flushed.value, end);
      }
    }
  }

  lemma HeadingFits(c: Context, st: State, end: nat)
    requires st.line < end <= LineCount(c) && Fits(st) && !Expects(st.header) && st.paragraph == []
    ensures HeadingStep(c, st, end).Ok? ==> Fits(HeadingStep(c, st, end).value)
  {
    hide Ready, HeaderOrder, NoContent, Waits, CommitBlock, PlainNodes, HeadingOf, Content, LineAt;
    var node := HeadingNode(c, st.line, st.header.Some? && !st.sawContent);
    BlockFits(st, node, [], st.line + 1, end);
  }

  lemma SimpleKinds(c: Context, k: LineClass, i: nat)
    requires i < LineCount(c)
    ensures SimpleBlock(c, k, i).Ok? ==> Plain(SimpleBlock(c, k, i).value.0.kind)
  {
    hide Ready, Content, LiteralEnd;
  }

  lemma FlatFits(c: Context, k: LineClass, st: State, end: nat)
    requires st.line < end <= LineCount(c)
      && k in {Math, Break, LiteralParagraph, HeadingText, Directive, UnsupportedText}
    requires k == Math ==> st.line + 1 < end
    requires Fits(st) && !Expects(st.header)
    ensures FlatStep(c, k, st, end).Ok? ==> Fits(FlatStep(c, k, st, end).value)
  {
    hide Ready, HeaderOrder, NoContent, Waits, CommitBlock, FlushParagraph, HeadingStep, SimpleBlock, Content,
      LineAt, BodyOf,
      LineStart;
    FlushKinds(c, st);
    var flushed := FlushParagraph(c, st);
    if flushed.Ok? {
      if k == Math {
        var r := MathBlock(c, st.line, end);
        if r.Ok? {
          BlockFits(flushed.value, r.value.0, [], r.value.1, end);
        }
      } else if k == HeadingText {
        HeadingFits(c, flushed.value, end);
      } else {
        var r := SimpleBlock(c, k, st.line);
        SimpleKinds(c, k, st.line);
        if r.Ok? {
          BlockFits(flushed.value, r.value.0, [], r.value.1, end);
        }
      }
    }
  }

  lemma NestingFits(c: Context, k: LineClass, st: State, end: nat, depth: nat)
    requires st.line < end <= LineCount(c)
    requires (k == Delimited && DelimiterOf(Content(c, st.line)).Some?)
      || (k == ListText && MarkerOf(Content(c, st.line)).Some?)
    requires Fits(st) && !Expects(st.header)
    ensures NestingStep(c, k, st, end, depth).Ok? ==> Fits(NestingStep(c, k, st, end, depth).value)
  {
    hide Ready, HeaderOrder, NoContent, Waits, CommitBlock, FlushParagraph, Content, LineAt, LineStart,
      DelimitedBlock, ListItems,
      MergeTerms, Ascending, DelimiterOf, MarkerOf, ListNode;
    var i := st.line;
    FlushKinds(c, st);
    var flushed := FlushParagraph(c, st);
    if flushed.Ok? {
      if k == Delimited {
        var r := DelimitedBlock(c, i, end, DelimiterOf(Content(c, i)).value, depth);
        DelimitedKinds(c, i, end, depth);
        if r.Ok? {
          BlockFits(flushed.value, r.value.0, r.value.1, r.value.2, end);
        }
      } else {
        var r := ListItems(c, i, end, depth);
        if r.Ok? && Ascending(r.value.0) {
          var l := ListNode(c, MergeTerms(r.value.0), LineStart(c, i));
          ListKinds(c, MergeTerms(r.value.0), LineStart(c, i));
          if l.Ok? {
            BlockFits(flushed.value, l.value.0, l.value.1, r.value.1, end);
          }
        }
      }
    }
  }

  lemma DelimitedKinds(c: Context, i: nat, end: nat, depth: nat)
    requires i < end <= LineCount(c) && DelimiterOf(Content(c, i)).Some?
    ensures var r := DelimitedBlock(c, i, end, DelimiterOf(Content(c, i)).value, depth);
      r.Ok? ==> r.value.0.kind.LiteralBlock? || r.value.0.kind.DelimitedBlock?
  {
    hide Ready, Content, DelimiterOf, NestedBlocks, BodyOf, LineStart, LineAt;
  }

  lemma ListKinds(c: Context, flat: seq<ListItem>, start: nat)
    ensures ListNode(c, flat, start).Ok? ==> ListNode(c, flat, start).value.0.kind.List?
  {
    hide Ready, Ascending, ListsNodes;
  }

  lemma BodyFits(c: Context, st: State, end: nat, depth: nat)
    requires st.line < end <= LineCount(c) && Fits(st) && (Expects(st.header) ==> AllBlank(Content(c, st.line)))
    ensures BodyStep(c, st, end, depth).Ok? ==> Fits(BodyStep(c, st, end, depth).value)
  {
    hide Ready, HeaderOrder, NoContent, Waits, Content, ClassAt, AllBlank, FlatStep, NestingStep, WaitStep, LineAt,
      DelimiterOf, MarkerOf, AttributeLine;
    ClassMeans(c, st, end);
    BlankClass(c, st, end);
    var k := ClassAt(c, st, end);
    if k in {CommentText, BlankText, TitleLine, Metadata, Anchor, AttributeText} {
      WaitFits(c, k, st, end);
    } else if k in {Delimited, ListText} {
      NestingFits(c, k, st, end, depth);
    } else if k != ParagraphText {
      FlatFits(c, k, st, end);
    }
  }

  lemma BlankClass(c: Context, st: State, end: nat)
    requires st.line < end <= LineCount(c)
    ensures ClassAt(c, st, end) == BlankText <==> AllBlank(Content(c, st.line))
  {
    hide Ready, Content, SetOff, AllBlank, Classify;
    var next := if st.line + 1 < end then Some(Content(c, st.line + 1)) else None;
    ClassOfLine(c.grammar, Content(c, st.line), next, AttributePosition(c, st));
  }

  lemma StepFits(c: Context, st: State, end: nat, depth: nat)
    requires st.line < end <= LineCount(c) && Fits(st)
    ensures Step(c, st, end, depth).Ok? ==> Fits(Step(c, st, end, depth).value)
  {
    hide Ready, HeaderOrder, NoContent, Waits, Content, AllBlank, BodyStep, HeaderText, LineAt;
    var content, full := Content(c, st.line), LineAt(c, st.line).full;
    if st.header.None? || AllBlank(content) {
      BodyFits(c, st, end, depth);
    } else {
      var h := st.header.value;
      if h.author && HeaderText(content) && c.grammar.author(content) {
        OrderAppend(st.blocks, S.Leaf(S.AuthorLine, full));
      } else if h.revision && HeaderText(content) {
        OrderAppend(st.blocks, S.Leaf(S.RevisionLine, full));
      } else {
        BodyFits(c, st.(header := Some(h.(author := false, revision := false))), end, depth);
      }
    }
  }

  lemma {:induction false} SequenceFits(c: Context, st: State, end: nat, depth: nat)
    requires end <= LineCount(c) && Fits(st)
    ensures Sequence(c, st, end, depth).Ok? ==> HeaderOrder(Sequence(c, st, end, depth).value.blocks)
    decreases if st.line < end then end - st.line else 0
  {
    hide Ready, HeaderFits, Waits, Step, FlushParagraph, FlushOrphan;
    if end <= st.line {
      FlushKinds(c, st);
      if FlushParagraph(c, st).Ok? {
        LastOrphans(FlushParagraph(c, st).value);
      }
    } else {
      StepFits(c, st, end, depth);
      if Step(c, st, end, depth).Ok? {
        SequenceFits(c, Step(c, st, end, depth).value, end, depth);
      }
    }
  }

  lemma LastOrphans(st: State)
    requires Fits(st)
    ensures HeaderOrder(FlushOrphan(st).blocks)
  {
    hide HeaderOrder, NoContent;
    if st.pending.range.Some? {
      OrphanKinds(st.(header := None));
    }
  }

  /** In every document a title comes before all content, an author line directly behind a title and a
      revision line directly behind an author line. */
  lemma HeadersInPlace(c: Context)
    ensures Blocks(c).Ok? ==> HeaderOrder(Blocks(c).value.blocks)
  {
    hide Ready, Sequence;
    SequenceFits(c, Initial(0, true), LineCount(c), 1);
  }
}
