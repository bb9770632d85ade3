/** Where each line of a document goes: into the block that its form says, unless an earlier line has
    opened a form that takes lines of any kind. */
module BlockHomes {
  import opened Text
  import opened Source
  import opened BlockGrammar
  import opened BlockModel
  import opened BlockState
  import opened BlockTiling
  import opened Delimiter
  import opened Documents
  import N = InlineNodes
  import S = Syntax
  import T = InlineTrees

  /** Whether lines of a class make blocks of a kind. */
  predicate Makes(k: LineClass, kind: S.Kind) {
    match k
    case Delimited => kind.DelimitedBlock? || kind.LiteralBlock?
    case Metadata => kind.MathBlock?
    case CommentText => kind.CommentLine?
    case BlankText => kind.BlankLine?
    case Break => kind.ThematicBreak? || kind.PageBreak?
    case LiteralParagraph => kind.LiteralBlock?
    case HeadingText => kind.Heading? || kind.MalformedHeading? || kind.DocumentTitle?
    case ListText => kind.List?
    case Directive => kind.Unsupported?
    case UnsupportedText => kind.Unsupported?
    case ParagraphText => kind.Paragraph?
    case _ => false
  }

  /** The leaf that a line of a class is while it waits for a block. */
  predicate WaitsAs(k: LineClass, kind: S.Kind) {
    match k
    case Anchor => kind.BlockAnchor?
    case TitleLine => kind.BlockTitle?
    case Metadata => kind.BlockAttribute?
    case CommentText => kind.CommentLine?
    case _ => false
  }

  ghost predicate Covers(c: Context, n: S.Node, j: nat)
    requires j < LineCount(c)
  {
    n.range.start <= LineStart(c, j) && LineStart(c, j + 1) <= n.range.end
  }

  /** The line is one of the leaves. */
  ghost predicate Leaf(c: Context, s: seq<S.Node>, j: nat, k: LineClass)
    requires j < LineCount(c)
  {
    exists x :: x in s && x == S.Leaf(x.kind, LineAt(c, j).full) && WaitsAs(k, x.kind)
  }

  /** A line that opens a block which takes lines of any kind: a list, a verbatim body, an indented
      paragraph, an attribute whose value goes on. */
  ghost predicate Takes(c: Context, kind: S.Kind, m: nat)
    requires m < LineCount(c)
  {
    var content := Content(c, m);
    match kind
    case List => Is(c, m, ListText)
    case LiteralBlock => Is(c, m, LiteralParagraph) || DelimiterOf(content) == Some(LiteralText)
    case DelimitedBlock => DelimiterOf(content).Some? && !Compound(DelimiterOf(content).value)
    case MathBlock => BlockAttributes(content) && c.grammar.math(content)
    case DocumentAttribute => AttributeLine(content)
    case _ => false
  }

  /** The line makes the block, or waits in it, or is an author or revision line, or an earlier line
      opened a form that takes it, or it lies in a body where the same is true. */
  ghost predicate AtHome(c: Context, s: seq<S.Node>, j: nat, k: LineClass)
    requires j < LineCount(c)
    decreases s, 1
  {
    exists n :: n in s && Covers(c, n, j) && Houses(c, n, j, k)
  }

  ghost predicate Houses(c: Context, n: S.Node, j: nat, k: LineClass)
    requires j < LineCount(c)
    decreases n, 0
  {
    || Makes(k, n.kind)
    || Leaf(c, n.children, j, k)
    || (n.kind == S.Unsupported && |n.children| == 1 && Leaf(c, n.children[0].children, j, k))
    || ((n.kind == S.AuthorLine || n.kind == S.RevisionLine) && HeaderText(Content(c, j)))
    || (exists m :: 0 <= m <= j && Covers(c, n, m) && Takes(c, n.kind, m))
    || (n.kind == S.DelimitedBlock && AtHome(c, n.children, j, k))
  }

  // ---------------------------------------------------------------- first forms

  /** A line has one first form, apart from that of a document attribute. */
  lemma FirstIsUnique(c: Context, j: nat, k: LineClass, other: LineClass)
    requires j < LineCount(c) && Is(c, j, k) && Is(c, j, other) && k != AttributeText && other != AttributeText
    ensures k == other
  {
    hide HasFormOf;
    SameRank(k, other);
  }

  lemma SameRank(k: LineClass, other: LineClass)
    ensures Rank(k) == Rank(other) <==> k == other
  {
  }

  lemma FormIs(c: Context, j: nat, k: LineClass, form: LineClass)
    requires j < LineCount(c) && Is(c, j, k) && HasFormOf(c.grammar, Content(c, j), None, form) && form != AttributeText
    ensures Rank(k) <= Rank(form)
  {
    hide HasFormOf;
  }

  lemma Inside(c: Context, n: S.Node, a: nat, b: nat, j: nat)
    requires NodeOver(c, n, a, b) && a <= j < b
    ensures Covers(c, n, j)
  {
    hide Ready, LineStart;
    LinesAscend(c, a, j);
    LinesAscend(c, j + 1, b);
  }

  // ---------------------------------------------------------------- one block

  lemma WaitingIsLeaf(c: Context, s: seq<S.Node>, a: nat, j: nat, k: LineClass)
    requires Waiting(c, s, a) && a <= j < a + |s| && j < LineCount(c) && Is(c, j, k) && k != AttributeText && k != Math
    ensures Leaf(c, s, j, k)
  {
    hide Ready, Is, LineAt;
    var x := s[j - a];
    assert WaitingLine(c, x, a + (j - a));
    var form := if x.kind == S.BlockTitle then TitleLine else if x.kind == S.BlockAnchor then Anchor
      else if x.kind == S.BlockAttribute then Metadata else CommentText;
    FirstIsUnique(c, j, k, form);
  }

  lemma OrphanHouses(c: Context, n: S.Node, a: nat, b: nat, j: nat, k: LineClass)
    requires Orphan(c, n, a, b) && a <= j < b && Is(c, j, k) && k != AttributeText && k != Math
    ensures Houses(c, n, j, k)
  {
    hide Ready, Is, Waiting, Leaf;
    var s :| |s| == b - a && Waiting(c, s, a) && n.children == [S.Node(S.Unknown, Span(c, a, b), s)];
    WaitingIsLeaf(c, s, a, j, k);
  }

  /** Blocks that hold no other blocks. */
  lemma MadeHouses(c: Context, n: S.Node, a: nat, m: nat, b: nat, end: nat, j: nat, k: LineClass)
    requires NodeOver(c, n, a, b) && a <= m <= j < b <= LineCount(c) && MadeOf(c, n.kind, m, b, end)
    requires Is(c, j, k) && k != AttributeText && k != Math
    requires n.kind == S.DelimitedBlock ==> !Compound(DelimiterOf(Content(c, m)).value)
    ensures Houses(c, n, j, k)
  {
    hide Ready, Is, Content, HasFormOf, Leaf, DelimiterOf, StartsBlank, BodyOf, AttributeLine, BlockAttributes,
      Covers, NodeOver,
      AtHome, HeaderText, MarkerOf;
    Inside(c, n, a, b, m);
    match n.kind
    case Paragraph =>
      assert ParagraphLine(c, j);
      FirstIsUnique(c, j, k, ParagraphText);
    case ThematicBreak => BreakIs(c, j, k);
    case PageBreak => BreakIs(c, j, k);
    case Heading => FirstIsUnique(c, j, k, HeadingText);
    case MalformedHeading => FirstIsUnique(c, j, k, HeadingText);
    case DocumentTitle => FirstIsUnique(c, j, k, HeadingText);
    case Unsupported =>
      if Is(c, m, Directive) {
        FirstIsUnique(c, j, k, Directive);
      } else {
        FirstIsUnique(c, j, k, UnsupportedText);
      }
    case CommentLine => FirstIsUnique(c, j, k, CommentText);
    case BlankLine => FirstIsUnique(c, j, k, BlankText);
    case LiteralBlock => assert Takes(c, n.kind, m);
    case DelimitedBlock => assert Takes(c, n.kind, m);
    case MathBlock => assert Takes(c, n.kind, m);
    case List => assert Takes(c, n.kind, m);
    case DocumentAttribute =>
      AttributeIs(c, m);
      assert Takes(c, n.kind, m);
    case _ =>
  }

  lemma BreakIs(c: Context, j: nat, k: LineClass)
    requires j < LineCount(c) && Is(c, j, k) && k != AttributeText && (Content(c, j) == "'''" || Content(c, j) == "<<<")
    ensures k == Break
  {
    FormIs(c, j, k, Break);
    BreakHasNoForm(c.grammar, Content(c, j));
  }

  lemma BreakHasNoForm(g: Grammar, t: Text)
    requires t == "'''" || t == "<<<"
    ensures DelimiterOf(t).None? && !AnchorLine(t) && !BlockTitle(t) && !BlockAttributes(t) && !Starts(t, "//")
      && !AllBlank(t)
  {
    assert t[0] == '\'' || t[0] == '<';
    hide Run;
  }

  lemma AttributeIs(c: Context, m: nat)
    requires m < LineCount(c) && Is(c, m, AttributeText)
    ensures AttributeLine(Content(c, m))
  {
  }

  /** A compound block: its delimiters, and the lines between them. */
  lemma {:induction false} BodyHouses(c: Context, n: S.Node, a: nat, m: nat, b: nat, end: nat, j: nat, k: LineClass)
    requires NodeOver(c, n, a, b) && Opens(c, n, a, m, b, end) && m <= j < b
    requires n.kind == S.DelimitedBlock && Compound(DelimiterOf(Content(c, m)).value)
    requires Is(c, j, k) && k != AttributeText && k != Math
    ensures Houses(c, n, j, k)
    decreases n, 2
  {
    hide Ready, Is, Content, HasFormOf, Leaf, DelimiterOf, BodyOf, Covers, NodeOver, AtHome, Tiled, Waiting, Holds,
      MadeOf;
    var first := Content(c, m);
    BodyEnds(c, n, a, m, b, end);
    var body := BodyOf(c, m, first, end);
    if j == m || (body.closed && j == body.contentEnd) {
      DelimiterMakes(c, j, k);
    } else {
      var inner := n.children[m - a + 1..];
      var blocks := if body.closed then Init(inner) else inner;
      assert blocks == n.children[m - a + 1..m - a + 1 + |blocks|];
      TiledHouses(c, blocks, m + 1, body.contentEnd, body.contentEnd, j, k);
      MoreHouses(c, blocks, n.children, j, k);
    }
  }

  lemma BodyEnds(c: Context, n: S.Node, a: nat, m: nat, b: nat, end: nat)
    requires Opens(c, n, a, m, b, end) && n.kind == S.DelimitedBlock
    ensures m < end <= LineCount(c) && DelimiterOf(Content(c, m)).Some?
    ensures var body := BodyOf(c, m, Content(c, m), end);
      b == body.next
      && (Compound(DelimiterOf(Content(c, m)).value) ==> m - a <= |n.children| && Encloses(c, n, m - a, m, body))
  {
    hide Ready, Content, DelimiterOf, BodyOf, Waiting, Holds, Encloses;
  }

  lemma DelimiterMakes(c: Context, j: nat, k: LineClass)
    requires j < LineCount(c) && Is(c, j, k) && k != AttributeText && k != Math && DelimiterOf(Content(c, j)).Some?
    ensures k == Delimited
  {
    hide Ready, DelimiterOf, Content;
    FormIs(c, j, k, Delimited);
  }

  lemma MoreHouses(c: Context, few: seq<S.Node>, s: seq<S.Node>, j: nat, k: LineClass)
    requires j < LineCount(c) && AtHome(c, few, j, k) && forall x :: x in few ==> x in s
    ensures AtHome(c, s, j, k)
  {
    hide Houses, Covers;
  }

  /** Every line of tiled blocks is at home. */
  lemma {:induction false} TiledHouses(c: Context, s: seq<S.Node>, a: nat, b: nat, end: nat, j: nat, k: LineClass)
    requires Tiled(c, s, a, b, end) && a <= j < b <= LineCount(c) && Is(c, j, k) && k != AttributeText && k != Math
    ensures AtHome(c, s, j, k)
    decreases s, 1
  {
    hide Ready, Is, Opens, Orphan, NodeOver, Houses, Covers, AtHome;
    if s == [] {
      TiledNothing(c, a, b, end);
    } else {
      var at := TiledLast(c, s, a, b, end);
      if j < at {
        TiledHouses(c, Init(s), a, at, end, j, k);
        MoreHouses(c, Init(s), s, j, k);
      } else {
        PlacedHouses(c, Last(s), at, b, end, j, k);
        Found(c, s, Last(s), j, k);
      }
    }
  }

  lemma Found(c: Context, s: seq<S.Node>, n: S.Node, j: nat, k: LineClass)
    requires j < LineCount(c) && n in s && Covers(c, n, j) && Houses(c, n, j, k)
    ensures AtHome(c, s, j, k)
  {
    hide Covers, Houses;
  }

  lemma {:induction false} PlacedHouses(c: Context, n: S.Node, a: nat, b: nat, end: nat, j: nat, k: LineClass)
    requires Placed(c, n, a, b, end) && a <= j < b <= LineCount(c) && Is(c, j, k) && k != AttributeText && k != Math
    ensures Covers(c, n, j) && Houses(c, n, j, k)
    decreases n, 3
  {
    hide Ready, Is, Opens, Orphan, NodeOver, Houses, Covers;
    Inside(c, n, a, b, j);
    if Orphan(c, n, a, b) {
      OrphanHouses(c, n, a, b, j, k);
    } else {
      var m: nat :| Opens(c, n, a, m, b, end);
      OpensFacts(c, n, a, m, b, end);
      if j < m {
        WaitingIsLeaf(c, n.children[..m - a], a, j, k);
        LeafOf(c, n, m - a, j, k);
      } else if n.kind == S.DelimitedBlock && Compound(DelimiterOf(Content(c, m)).value) {
        BodyHouses(c, n, a, m, b, end, j, k);
      } else {
        MadeHouses(c, n, a, m, b, end, j, k);
      }
    }
  }

  lemma OpensFacts(c: Context, n: S.Node, a: nat, m: nat, b: nat, end: nat)
    requires Opens(c, n, a, m, b, end)
    ensures a <= m < b <= LineCount(c) && m - a <= |n.children| && Waiting(c, n.children[..m - a], a)
      && MadeOf(c, n.kind, m, b, end)
  {
  }

  lemma LeafOf(c: Context, n: S.Node, d: nat, j: nat, k: LineClass)
    requires d <= |n.children| && j < LineCount(c) && Leaf(c, n.children[..d], j, k)
    ensures Houses(c, n, j, k)
  {
    hide Ready, LineAt, AtHome;
    var x :| x in n.children[..d] && x == S.Leaf(x.kind, LineAt(c, j).full) && WaitsAs(k, x.kind);
    assert x in n.children;
  }

  // ---------------------------------------------------------------- documents

  /** Every line has a first form that is no math block and no attribute. */
  lemma HasFirst(c: Context, j: nat) returns (k: LineClass)
    requires j < LineCount(c)
    ensures Is(c, j, k) && k != AttributeText && k != Math
  {
    hide Ready, Content, DelimiterOf, AnchorLine, BlockTitle, BlockAttributes, Starts, AllBlank, StartsBlank, MarkerOf,
      UnsupportedForm, FirstForm;
    k := Classify(c.grammar, Content(c, j), None, false);
    ClassIsFirst(c.grammar, Content(c, j), None, false);
  }

  /** In a document that is parsed every line is at home in the blocks: the line of a list item, for
      one, lies in a list, unless an earlier line opened a verbatim body or an attribute value, or it
      is read as an author or revision line. */
  lemma DocumentHouses(c: Context, j: nat, k: LineClass)
    requires Blocks(c).Ok? && j < LineCount(c) && Is(c, j, k) && k != AttributeText && k != Math
    ensures AtHome(c, Blocks(c).value.blocks, j, k)
  {
    hide Ready, Is, Tiled, Blocks, AllLand, S.AllWellNested, S.Contiguous, S.NoTokensAll, AtHome;
    BlocksCover(c);
    TiledHouses(c, Blocks(c).value.blocks, 0, LineCount(c), LineCount(c), j, k);
  }

  /** The nodes of a paragraph or list item text show its inlines, those of a heading text too. */
  lemma TextShows(c: Context, r: TextRange)
    requires TextOf(c.document.source, r).Some?
    ensures T.ShowAll(N.SplitHardBreaks(Inlines(c, r)), BrokenNodes(c, r)) && T.ShowAll(Inlines(c, r), PlainNodes(c, r))
  {
    hide Ready, N.Landed, N.Rowed, Inlines, TextOf, N.SplitHardBreaks, Lands, N.Nodes, T.ShowAll;
    BrokenInlines(c, r);
    InlinesTile(c, r);
    T.NodesShow(N.SplitHardBreaks(Inlines(c, r)), r.start, r.end);
    T.NodesShow(Inlines(c, r), r.start, r.end);
  }
}
