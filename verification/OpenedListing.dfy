/** Formatting turns the text of a paragraph into the delimiter of a listing: what the formatter would
    edit next, it may not touch any more. */
module OpenedListing {
  import opened Text
  import opened Source
  import opened BlockGrammar
  import opened BlockModel
  import opened BlockState
  import opened BlockParser
  import opened BlockRun
  import opened Delimiter
  import opened Documents
  import opened Protection
  import A = SafeSources
  import F = Formatter
  import J = JoinedLines
  import I = InlineParser
  import N = InlineNodes
  import M = InlineModel
  import O = IdleText
  import P = FormatterFixpoint
  import S = Syntax
  import T = SettledTexts
  import X = SettledDocuments
  import E = EscapedMacros

  const BEFORE: Text := "----\r \n"
  const AFTER: Text := "----\r\n"
  const CONTENT: Text := "----\r "
  const STYLE := F.Config(F.LfStyle, true, 1)

  lemma BeforeLines()
    ensures Valid(BEFORE) && Lines(BEFORE) == [MakeLine(0, 6, 7, Lf), MakeLine(7, 7, 7, NoEnding)]
  {
    var lines := [MakeLine(0, 6, 7, Lf), MakeLine(7, 7, 7, NoEnding)];
    assert lines[1..] == [MakeLine(7, 7, 7, NoEnding)];
    assert LineOk(BEFORE, lines[0]) && LineOk(BEFORE, lines[1]);
    assert LinesOk(BEFORE, lines[1..], 7);
    LinesUnique(BEFORE, lines, 0, 0);
  }

  lemma AfterLines()
    ensures Valid(AFTER) && Lines(AFTER) == [MakeLine(0, 4, 6, CrLf), MakeLine(6, 6, 6, NoEnding)]
  {
    var lines := [MakeLine(0, 4, 6, CrLf), MakeLine(6, 6, 6, NoEnding)];
    assert lines[1..] == [MakeLine(6, 6, 6, NoEnding)];
    assert LineOk(AFTER, lines[0]) && LineOk(AFTER, lines[1]);
    assert LinesOk(AFTER, lines[1..], 6);
    LinesUnique(AFTER, lines, 0, 0);
  }

  lemma BeforeContents(c: Context)
    requires c.document.source == BEFORE
    ensures LineCount(c) == 2 && LineAt(c, 0) == MakeLine(0, 6, 7, Lf) && LineAt(c, 1) == MakeLine(7, 7, 7, NoEnding)
    ensures Content(c, 0) == CONTENT && Content(c, 1) == ""
  {
    hide Ready, Lines, Valid;
    X.LinesOf(c);
    BeforeLines();
    assert BEFORE[0..6] == CONTENT && BEFORE[7..7] == "";
  }

  lemma AfterContents(c: Context)
    requires c.document.source == AFTER
    ensures LineCount(c) == 2 && LineAt(c, 0) == MakeLine(0, 4, 6, CrLf) && LineAt(c, 1) == MakeLine(6, 6, 6, NoEnding)
    ensures Content(c, 0) == "----" && Content(c, 1) == ""
  {
    hide Ready, Lines, Valid;
    X.LinesOf(c);
    AfterLines();
    assert AFTER[0..4] == "----" && AFTER[6..6] == "";
  }

  // ---------------------------------------------------------------- the paragraph

  lemma ContentIsParagraph(g: Grammar, next: Option<Text>, position: bool)
    requires !g.directive(CONTENT)
    ensures Classify(g, CONTENT, next, position) == ParagraphText
  {
    hide TermMarker, StartsWith, Ends, DelimiterOf, UnsupportedForm, MarkerOf;
    var c := CONTENT;
    NoStarts(c);
    NoForms(c);
    assert c[0] == '-' && c[5] == ' ';
  }

  lemma NoStarts(c: Text)
    requires c != [] && c[0] == '-'
    ensures !Starts(c, "[[") && !Starts(c, "..") && !Starts(c, ".") && !Starts(c, "//") && !Starts(c, "=")
      && !Starts(c, "* ") && !Starts(c, ". ")
  {
    hide StartsWith;
    E.FirstUnit(c, 0, "[[");
    E.FirstUnit(c, 0, "..");
    E.FirstUnit(c, 0, ".");
    E.FirstUnit(c, 0, "//");
    E.FirstUnit(c, 0, "=");
    E.FirstUnit(c, 0, "* ");
    E.FirstUnit(c, 0, ". ");
  }

  lemma NoForms(c: Text)
    requires c == CONTENT
    ensures DelimiterOf(c).None? && !UnsupportedForm(c) && MarkerOf(c).None?
  {
    hide TermMarker, Ends, Starts, StartsWith;
    NoStarts(c);
    LastOf(c, "===");
    NoTerm(c, 0);
    assert c[4] == '\r' && c[0] == '-';
    NotRepeated(c);
    assert c[BlankRun(c)..] == c;
  }

  lemma NotRepeated(c: Text)
    requires |c| > 4 && c[4] == '\r' && c[0] == '-'
    ensures Run(c, '-') < |c|
      && Run(c, '/') == Run(c, '=') == Run(c, '.') == Run(c, '*') == Run(c, '+') == Run(c, '_') == 0
  {
  }

  /** A document of one terminated line. */
  ghost predicate OneLine(c: Context, first: Text) {
    LineCount(c) == 2 && Content(c, 0) == first && Content(c, 1) == ""
  }

  /** The line of hyphens, a carriage return and a space is a paragraph. */
  lemma BeforeStep(c: Context, st: State)
    requires OneLine(c, CONTENT) && !c.grammar.directive(CONTENT) && st == Initial(0, true)
    ensures Step(c, st, 2, 1) == Ok(BodySeen(st.(paragraph := [LineAt(c, 0)])).(line := 1))
  {
    hide Ready, Content, Classify, SetOff, AllBlank, HeaderText, NestingStep, WaitStep, FlatStep, LineAt;
    ContentIsParagraph(c.grammar, Some(Content(c, 1)), AttributePosition(c, st));
    ClassOfLine(c.grammar, CONTENT, Some(Content(c, 1)), AttributePosition(c, st));
    assert st.(header := Some(st.header.value.(author := false, revision := false))) == st;
    assert st.paragraph + [LineAt(c, 0)] == [LineAt(c, 0)];
  }

  /** Idle text holds nothing, so that its paragraph has no children. */
  lemma IdleHasNoNodes(c: Context, r: TextRange, v: Text)
    requires TextOf(c.document.source, r) == Some(v) && O.Idle(v) && v != []
    ensures BrokenNodes(c, r) == []
  {
    hide Ready, Valid, I.ParsedSegment, N.SplitHardBreaks, N.Rowed, N.Landed, M.Tiles;
    BrokenInlines(c, r);
    assert SegmentOf(c, r) == v;
    O.IdleIsText(c.words, SegmentOf(c, r), r.start, c.config);
    O.IdleIsUnbroken(r, v);
    OneTextHasNoNodes(M.PlainText(r, v), r.start, r.end);
  }

  lemma OneTextHasNoNodes(x: M.Inline, lo: nat, hi: nat)
    requires N.Rowed([x], lo, hi) && x.PlainText?
    ensures N.Nodes([x], lo, hi) == []
  {
    assert [x][..0] == [];
  }

  lemma LineIsText(c: Context, i: nat)
    requires i < LineCount(c)
    ensures var l := LineAt(c, i);
      l.full.start <= l.full.end && l.content.start <= l.content.end
        && TextOf(c.document.source, l.content) == Some(Content(c, i))
  {
    hide Ready;
    LineFacts(c, i);
  }

  lemma BeforeFlush(c: Context, st: State)
    requires OneLine(c, CONTENT) && st.paragraph == [LineAt(c, 0)] && st.blocks == [] && st.pending == NOTHING
      && st.texts == []
    ensures FlushParagraph(c, st)
      == Ok(st.(paragraph := [], blocks := [S.Node(S.Paragraph, LineAt(c, 0).full, [])],
        texts := [LineAt(c, 0).content]))
  {
    hide Ready, BrokenNodes, AdmonitionOffset;
    LineIsText(c, 0);
    IdleHasNoNodes(c, LineAt(c, 0).content, CONTENT);
    NoColon(CONTENT, 0);
    NoAdmonition(CONTENT);
    var l := LineAt(c, 0);
    var node := S.Node(S.Paragraph, l.full, []);
    assert ParagraphNode(c, [l]) == Ok((node, l.content));
    assert [] + [node] == [node] && [] + [l.content] == [l.content];
  }

  lemma BlankStepIs(c: Context, st: State)
    requires OneLine(c, CONTENT) && st == BodySeen(Initial(0, true).(paragraph := [LineAt(c, 0)])).(line := 1)
    ensures var next := Step(c, st, 2, 1);
      && next.Ok? && next.value.line == 2 && next.value.pending == NOTHING && next.value.paragraph == []
      && next.value.blocks == [S.Node(S.Paragraph, LineAt(c, 0).full, []), S.Leaf(S.BlankLine, LineAt(c, 1).full)]
      && next.value.texts == [LineAt(c, 0).content]
  {
    hide Ready, Content, Classify, SetOff, HeaderText, NestingStep, FlatStep, FlushParagraph, LineAt, AttributePosition;
    ClassOfLine(c.grammar, "", None, AttributePosition(c, st));
    assert AllBlank("");
    BeforeFlush(c, st.(header := StopAuthor(st.header)));
  }

  lemma BeforeBlocks(c: Context)
    requires OneLine(c, CONTENT) && !c.grammar.directive(CONTENT)
    ensures var r := Blocks(c);
      && r.Ok? && r.value.texts == [LineAt(c, 0).content]
      && r.value.blocks == [S.Node(S.Paragraph, LineAt(c, 0).full, []), S.Leaf(S.BlankLine, LineAt(c, 1).full)]
  {
    hide Ready, Content, Step, Sequence, LineAt, OneLine;
    var st := Initial(0, true);
    assert LineCount(c) == 2 by { Two(c, CONTENT); }
    BeforeStep(c, st);
    SequenceUnfolds(c, st, 2, 1);
    var second := BodySeen(st.(paragraph := [LineAt(c, 0)])).(line := 1);
    BlankStepIs(c, second);
    SequenceUnfolds(c, second, 2, 1);
    SequenceEnds(c, Step(c, second, 2, 1).value, 2, 1);
  }

  lemma Two(c: Context, first: Text)
    requires OneLine(c, first)
    ensures LineCount(c) == 2
  {
    hide Ready;
  }

  lemma {:induction false} LeavesProtectNothing(s: seq<S.Node>)
    requires forall x :: x in s ==> x.kind.TokenLeaf? && x.children == []
    ensures ProtectedAmong(s, false) == []
    decreases |s|
  {
    if s != [] {
      assert s[0] in s;
      LeavesProtectNothing(s[1..]);
    }
  }

  lemma {:induction false} ClippedAreLeaves(tokens: seq<Token>, r: TextRange)
    ensures forall x :: x in S.Clipped(tokens, r) ==> x.kind.TokenLeaf? && x.children == []
    decreases |tokens|
  {
    if tokens != [] {
      ClippedAreLeaves(tokens[1..], r);
    }
  }

  /** A node without annotations holds tokens only. */
  lemma BareNode(v: Text, tokens: seq<Token>, n: S.Node)
    requires n.children == [] && !Protects(n.kind) && S.Materialized(v, tokens, n).Some?
    ensures ProtectedIn(S.Materialized(v, tokens, n).value, false) == []
  {
    hide S.Clipped;
    ClippedAreLeaves(tokens, n.range);
    LeavesProtectNothing(S.Clipped(tokens, n.range));
  }

  lemma BeforeProtectsNothing(c: Context, root: S.Node)
    requires OneLine(c, CONTENT) && !c.grammar.directive(CONTENT) && TreeOf(c, root)
    ensures ProtectedIn(root, false) == []
  {
    hide Ready, Blocks, S.Materialized, ProtectedIn;
    BeforeBlocks(c);
    var blocks := Blocks(c).value.blocks;
    BareNode(c.document.source, c.document.tokens, blocks[0]);
    BareNode(c.document.source, c.document.tokens, blocks[1]);
    TwoProtect(root, root.children[0], root.children[1]);
  }

  lemma TwoProtect(root: S.Node, a: S.Node, b: S.Node)
    requires root.kind.DocumentRoot? && root.children == [a, b]
    ensures ProtectedIn(root, false) == ProtectedIn(a, false) + ProtectedIn(b, false)
  {
    assert root.children[1..] == [b];
    assert ProtectedAmong([b], false) == ProtectedIn(b, false) + [] == ProtectedIn(b, false);
  }

  // ---------------------------------------------------------------- the listing

  lemma AfterStep(c: Context, st: State)
    requires OneLine(c, "----") && st == Initial(0, true)
    ensures var next := Step(c, st, 2, 1);
      && next.Ok? && next.value.line == 2 && next.value.pending == NOTHING && next.value.paragraph == []
      && |next.value.blocks| == 1 && next.value.blocks[0].kind == S.DelimitedBlock
      && next.value.blocks[0].range == Range(LineAt(c, 0).full.start, LineStart(c, 2))
      && next.value.texts == []
  {
    hide Ready, Content, Classify, SetOff, AllBlank, HeaderText, WaitStep, FlatStep, LineAt, AttributePosition,
      DelimiterOf, LineStart, NestingStep;
    HyphensOpen();
    ClassOfLine(c.grammar, "----", Some(""), AttributePosition(c, st));
    assert st.(header := Some(st.header.value.(author := false, revision := false))) == st;
    AfterNests(c, st);
  }

  /** The listing is one block up to the end, in which no blocks are parsed. */
  lemma AfterNests(c: Context, st: State)
    requires OneLine(c, "----") && DelimiterOf(Content(c, 0)) == Some(Listing) && st == Initial(0, true)
    ensures var next := NestingStep(c, Delimited, st, 2, 1);
      && next.Ok? && next.value.line == 2 && next.value.pending == NOTHING && next.value.paragraph == []
      && |next.value.blocks| == 1 && next.value.blocks[0].kind == S.DelimitedBlock
      && next.value.blocks[0].range == Range(LineAt(c, 0).full.start, LineStart(c, 2))
      && next.value.texts == []
  {
    hide Ready, Content, LineAt, BodyOf, DelimiterOf, LineStart;
    AfterBody(c);
  }

  lemma HyphensOpen()
    ensures DelimiterOf("----") == Some(Listing) && !BlockAttributes("----") && !AllBlank("----")
  {
    var c := "----";
    assert c[0] == '-';
    LastOf(c, "===");
    assert Run(c[3..], '-') == 1 && Run(c[2..], '-') == 2 && Run(c[1..], '-') == 3;
  }

  /** Without a closing delimiter the listing takes the rest of the document. */
  lemma AfterBody(c: Context)
    requires OneLine(c, "----")
    ensures BodyOf(c, 0, "----", 2) == Body(2, 2, false) && LineAt(c, 0).full.start <= LineStart(c, 2)
  {
    hide Ready, Content;
    LinesAscend(c, 0, 2);
  }

  lemma AfterBlocks(c: Context)
    requires OneLine(c, "----")
    ensures var r := Blocks(c);
      && r.Ok? && r.value.texts == [] && |r.value.blocks| == 1
      && r.value.blocks[0].kind == S.DelimitedBlock
         && r.value.blocks[0].range == Range(LineAt(c, 0).full.start, LineStart(c, 2))
  {
    hide Ready, Content, Step, Sequence, LineAt, OneLine, LineStart;
    var st := Initial(0, true);
    assert LineCount(c) == 2 by { Two(c, "----"); }
    AfterStep(c, st);
    SequenceUnfolds(c, st, 2, 1);
    SequenceEnds(c, Step(c, st, 2, 1).value, 2, 1);
  }

  lemma AfterProtects(c: Context, root: S.Node)
    requires OneLine(c, "----") && TreeOf(c, root)
    ensures ProtectedIn(root, false) == [Range(LineAt(c, 0).full.start, LineStart(c, 2))]
  {
    hide Ready, Blocks, LineStart, Content, LineAt, OneLine;
    assert LineCount(c) == 2 by { Two(c, "----"); }
    AfterBlocks(c);
    var n := root.children[0];
    assert root.children == [n];
    assert ProtectedAmong([n], false) == ProtectedIn(n, false) + [];
  }

  // ---------------------------------------------------------------- both passes

  /** The first pass trims the blank, and the return that it bares would go in the next. */
  lemma FirstPass()
    ensures F.Formatted(P.Plain(BEFORE), STYLE) == AFTER && T.Unsettled(P.Plain(BEFORE), STYLE)
  {
    hide Lines, F.KeptEnd, F.LastReal, P.Virtual, F.Shielded, F.BeforeAttribute, Valid, T.BlankTail, T.BlankAfterOther,
      TrimmedEnd, AllBlank;
    BeforeLines();
    assert BEFORE[0..6] == CONTENT;
    var x := P.Plain(BEFORE);
    BeforeEnd(x);
    P.PlainLine(BEFORE, 0);
    P.NothingAfter(BEFORE, STYLE, 1, 0);
    ContentTrimmed();
    assert CONTENT[..5] == "----\r";
    assert J.EndsInReturn("----\r");
    assert T.ReturnLine(x, 0);
    assert P.Closed(x, STYLE, 0);
    assert F.FormattedLine(x, STYLE, 0, 0) == "----\r" + "\n";
  }

  lemma BeforeEnd(x: F.Input)
    requires x.lines == [MakeLine(0, 6, 7, Lf), MakeLine(7, 7, 7, NoEnding)]
    ensures F.LastReal(x, 2) == Some(0) && P.Virtual(x, 1) && !P.Virtual(x, 0)
  {
    assert F.LastReal(x, 1) == Some(0);
  }

  lemma ContentTrimmed()
    ensures TrimmedEnd(CONTENT) == 5 && F.KeptEnd(CONTENT) == 5 && !AllBlank(CONTENT)
  {
    hide DelimiterOf;
    assert CONTENT[5] == ' ' && CONTENT[4] == '\r' && CONTENT[0] == '-';
    assert CONTENT[..5] == "----\r";
    ReturnOpensNothing();
  }

  lemma ReturnOpensNothing()
    ensures DelimiterOf("----\r").None?
  {
    assert "----\r"[4] == '\r' && "----\r"[0] == '-';
    NotRepeated("----\r");
    LastOf("----\r", "===");
  }

  /** A listing over the whole text leaves nothing to edit. */
  lemma SecondPass(a: set<int>)
    ensures F.EditsFrom(T.Shielding(AFTER, [Range(0, 6)], a), STYLE, 0, 0) == []
  {
    hide Lines, Valid, F.BeforeAttribute, F.LastReal, F.KeptEnd;
    AfterLines();
    var y := T.Shielding(AFTER, [Range(0, 6)], a);
    assert F.Overlap(Range(0, 6), y.lines[0].full) && Range(0, 6) in y.protected;
    assert F.Shielded(y, 0);
    assert AFTER[5] == '\n';
    assert F.KeptEnd("") == 0;
    assert F.EditsFrom(y, STYLE, 2, 0) == [];
    assert F.EditsFrom(y, STYLE, 1, 0) == [] + [];
  }

  /** An unsettled document that formatting its output leaves as it is: the output is a listing, and
      protected. As a plain text the output would be edited. */
  lemma ListingIsOpened(c: Context, root: S.Node, again: Context, tree: S.Node)
    requires c.document.source == BEFORE && !c.grammar.directive(CONTENT) && TreeOf(c, root)
    requires again.document.source == AFTER && TreeOf(again, tree)
    ensures ProtectedIn(root, false) == [] && T.Unsettled(P.Plain(BEFORE), STYLE)
      && F.Formatted(P.Plain(AFTER), STYLE) != AFTER
    ensures F.Formatted(InputOf(c, root), STYLE) == AFTER && F.Formatted(InputOf(again, tree), STYLE) == AFTER
  {
    hide Ready, TreeOf, F.Formatted, Lines, Valid, ProtectedIn, S.Preorder, StartsOf, T.Unsettled, Content,
      F.EditsFrom, LineAt;
    BeforeContents(c);
    AfterContents(again);
    BeforeLines();
    BeforeProtectsNothing(c, root);
    AfterProtects(again, tree);
    FirstPass();
    T.FormattedAgain(BEFORE, STYLE);
    X.UnprotectedIsPlain(c, root);
    X.FormattedUnder(again, tree);
    var a := StartsOf(S.Preorder(tree.children));
    SecondPass(a);
    T.SecondPassIff(BEFORE, STYLE, [Range(0, 6)], a);
  }

  /** Both documents have a tree. */
  lemma BothHaveTrees(c: Context, again: Context)
    requires c.document.source == BEFORE && !c.grammar.directive(CONTENT) && again.document.source == AFTER
    ensures Blocks(c).Ok? && AllLand(c, Blocks(c).value.texts)
    ensures Blocks(again).Ok? && AllLand(again, Blocks(again).value.texts)
  {
    hide Ready, Blocks, Content, AllLand, Lines, Valid;
    BeforeContents(c);
    AfterContents(again);
    BeforeBlocks(c);
    AfterBlocks(again);
    A.AllTextsLand(c, Blocks(c).value.texts);
    A.AllTextsLand(again, []);
  }
}
