/** From a text to its syntax tree and back. */
module Documents {
  import opened Text
  import opened Source
  import opened BlockGrammar
  import opened BlockModel
  import opened BlockState
  import opened BlockTiling
  import opened BlockParser
  import opened BlockSafety
  import opened BlockRun
  import N = InlineNodes
  import S = Syntax
  import E = EscapedMacros
  import P = InlineParser

  /** The blocks of a whole document. */
  function Blocks(c: Context): Result<Parsed> {
    Sequence(c, Initial(0, true), LineCount(c), 1)
  }

  lemma ContiguousStep(c: Context, n: S.Node, rest: seq<S.Node>, k: nat, b: nat)
    requires NodeOver(c, n, k, b) && S.Contiguous(c.document.source, rest, LineStart(c, b))
    ensures S.Contiguous(c.document.source, [n] + rest, LineStart(c, k))
  {
    hide Ready, LineStart, N.Row, TextOf;
    SpanIsText(c, k, b);
    assert ([n] + rest)[1..] == rest;
  }

  /** Tiled blocks followed by contiguous ones are contiguous. */
  lemma {:induction false} TiledContiguous(c: Context, s: seq<S.Node>, rest: seq<S.Node>, a: nat, b: nat, end: nat)
    requires a <= b <= LineCount(c) && Tiled(c, s, a, b, end) && S.Contiguous(c.document.source, rest, LineStart(c, b))
    ensures S.Contiguous(c.document.source, s + rest, LineStart(c, a))
    decreases |s|
  {
    hide Ready, LineStart, NodeOver, Opens, Orphan, Tiled, S.Contiguous;
    if s == [] {
      TiledNothing(c, a, b, end);
      assert s + rest == rest;
    } else {
      var k := TiledLast(c, s, a, b, end);
      ContiguousStep(c, Last(s), rest, k, b);
      TiledContiguous(c, Init(s), [Last(s)] + rest, a, k, end);
      assert Init(s) + ([Last(s)] + rest) == s + rest;
    }
  }

  /** Parsing a document fails at most on the nesting limit; its blocks are contiguous over the
      whole text, made of the lines they should be, and nest as soon as all split texts land. */
  lemma BlocksCover(c: Context)
    ensures var r := Blocks(c);
      && Safe(c, r)
      && (r.Ok? ==>
            && Tiled(c, r.value.blocks, 0, LineCount(c), LineCount(c))
            && S.NoTokensAll(r.value.blocks)
            && S.Contiguous(c.document.source, r.value.blocks, 0)
            && (S.AllWellNested(c.document.source, r.value.blocks) <==> AllLand(c, r.value.texts)))
  {
    hide Ready, Tiled, Inv, Sequence, S.AllWellNested, S.Contiguous, AllLand, S.NoTokensAll;
    var end := LineCount(c);
    RootStops(c);
    InitialInv(c, 0, true, end);
    SequenceKeeps(c, Initial(0, true), 0, end, 1);
    var r := Blocks(c);
    if r.Ok? {
      TiledMembers(c, r.value.blocks, 0, end, end);
      NothingLeft(c);
      TiledContiguous(c, r.value.blocks, [], 0, end, end);
      assert r.value.blocks + [] == r.value.blocks;
    }
  }

  lemma RootStops(c: Context)
    ensures StopsAt(c, LineCount(c)) && LineStart(c, 0) == 0
  {
    hide TokensOf;
  }

  lemma NothingLeft(c: Context)
    ensures S.Contiguous(c.document.source, [], LineStart(c, LineCount(c))) && LineStart(c, 0) == 0
  {
    hide TokensOf;
  }

  /** The tree over the blocks of a document, each of them materialized. */
  ghost predicate TreeOf(c: Context, root: S.Node) {
    && Blocks(c).Ok? && root.kind.DocumentRoot? && root.range == Range(0, |c.document.source|)
    && |root.children| == |Blocks(c).value.blocks|
    && forall i :: 0 <= i < |root.children| ==>
         S.Materialized(c.document.source, c.document.tokens, Blocks(c).value.blocks[i]) == Some(root.children[i])
  }

  /** The tree of a document. Apart from the nesting limit, building it fails exactly when some
      text holds a hard break that cannot be cut off on a character boundary: only then a
      defensive check fires. */
  method ParseDocument(c: Context) returns (r: Result<S.Node>)
    ensures Blocks(c).Err? ==> r == Err(Blocks(c).failure) && r.failure.DepthLimit?
    ensures Blocks(c).Ok? ==> (r.Ok? <==> AllLand(c, Blocks(c).value.texts)) && (r.Err? ==> r.failure.InvariantBroken?)
    ensures r.Ok? ==>
      && TreeOf(c, r.value) && S.Nested(r.value)
      && S.Partitions(c.document.source, S.AllLeaves(r.value.children), 0, |c.document.source|)
      && |r.value.children| == |Blocks(c).value.blocks|
      && forall i :: 0 <= i < |r.value.children| ==>
           r.value.children[i].kind == Blocks(c).value.blocks[i].kind
             && r.value.children[i].range == Blocks(c).value.blocks[i].range
  {
    hide Ready, Tiled, Sequence, S.AllWellNested, S.Contiguous, AllLand, S.NoTokensAll, S.Partitions, S.AllLeaves,
      S.Nested, S.Materialized, StopsAt;
    RootStops(c);
    BlocksCover(c);
    var parsed := ParseBlockSequence(c, 0, LineCount(c), 1, true);
    if parsed.Err? {
      return Err(parsed.failure);
    }
    DocumentIsOk(c);
    var tree := S.FromBlocks(c.document, parsed.value.blocks);
    r := match tree case None => Err(InvariantBroken) case Some(root) => Ok(root);
  }

  lemma DocumentIsOk(c: Context)
    ensures DocumentOk(c.document)
  {
    hide DocumentOk;
  }

  /** A document that has a tree is spelled by it. */
  method RoundTrip(c: Context) returns (text: Text, ok: bool)
    ensures ok <==> Blocks(c).Ok? && AllLand(c, Blocks(c).value.texts)
    ensures ok ==> text == c.document.source
  {
    hide Ready, Sequence, AllLand, S.Partitions, S.AllLeaves;
    var r := ParseDocument(c);
    if r.Err? {
      return [], false;
    }
    text := S.Reconstruct(c.document.source, r.value);
    ok := true;
  }

  // ---------------------------------------------------------------- an input without a tree

  const FIRST := "\\<<\U{C3}\U{A9} +"
  const SECOND := ">>"

  lemma InputLines(c: Context)
    requires c.document.source == E.INPUT
    ensures c.document.lines == [MakeLine(0, 7, 8, Lf), MakeLine(8, 10, 10, NoEnding)]
  {
    hide TokensOf;
    E.InputIsValid();
    var lines := [MakeLine(0, 7, 8, Lf), MakeLine(8, 10, 10, NoEnding)];
    assert lines[1..] == [MakeLine(8, 10, 10, NoEnding)];
    assert LineOk(E.INPUT, lines[0]) && LineOk(E.INPUT, lines[1]);
    assert LinesOk(E.INPUT, lines[1..], 8);
    LinesUnique(E.INPUT, lines, 0, 0);
    LinesUnique(E.INPUT, c.document.lines, 0, 0);
  }

  lemma InputContents(c: Context)
    requires c.document.source == E.INPUT
    ensures LineCount(c) == 2 && LineAt(c, 0) == MakeLine(0, 7, 8, Lf) && LineAt(c, 1) == MakeLine(8, 10, 10, NoEnding)
    ensures Content(c, 0) == FIRST && Content(c, 1) == SECOND
  {
    hide Ready;
    InputLines(c);
    E.InputIsValid();
    assert E.INPUT[0..7] == FIRST && E.INPUT[8..10] == SECOND;
  }

  /** A line that starts with a backslash or `>` and holds no term marker is paragraph text. */
  lemma PlainLine(g: Grammar, c: Text, next: Option<Text>, position: bool)
    requires c != [] && c[0] in "\\>" && c[|c| - 1] != '=' && ':' !in c && ';' !in c && !g.directive(c)
    ensures Classify(g, c, next, position) == ParagraphText
  {
    hide TermMarker, StartsWith, Ends, NextUnit, CharLen;
    PlainStarts(c);
    LastOf(c, "===");
    NoTerm(c, 0);
    assert Run(c, c[0]) > 0;
    assert c[0..] == c;
    assert !Blank(c[0]) && !AllBlank(c);
    NoDelimiter(c);
    assert c[BlankRun(c)..] == c;
  }

  lemma NoDelimiter(c: Text)
    requires c != [] && c[0] in "\\>" && !Ends(c, "===")
    ensures DelimiterOf(c).None?
  {
    hide Ends;
  }

  lemma PlainStarts(c: Text)
    requires c != [] && c[0] in "\\>"
    ensures !Starts(c, "[[") && !Starts(c, "..") && !Starts(c, ".") && !Starts(c, "//") && !Starts(c, "=")
      && !Starts(c, "* ") && !Starts(c, ". ")
  {
    hide StartsWith;
    E.FirstUnit(c, 0, "[[");
    E.FirstUnit(c, 0, "..");
    E.FirstUnit(c, 0, ".");
    E.FirstUnit(c, 0, "//");
    E.FirstUnit(c, 0, "=");
    E.FirstUnit(c, 0, "* ");
    E.FirstUnit(c, 0, ". ");
  }

  lemma {:induction false} NoTerm(c: Text, i: nat)
    requires i <= |c| && ':' !in c && ';' !in c
    ensures TermMarker(c, i).None?
    decreases |c| - i
  {
    if i < |c| {
      E.FirstUnit(c, i, "::::");
      E.FirstUnit(c, i, ":::");
      E.FirstUnit(c, i, "::");
      E.FirstUnit(c, i, ";;");
      NoTerm(c, i + 1);
    }
  }

  lemma InputStep(c: Context, st: State, i: nat)
    requires c.document.source == E.INPUT && i < 2 == LineCount(c) && st.line == i
    requires !c.grammar.directive(Content(c, i)) && st.header.Some? && !st.header.value.author
      && !st.header.value.revision
    requires Content(c, 0) == FIRST && Content(c, 1) == SECOND
    ensures Step(c, st, 2, 1) == Ok(BodySeen(st.(paragraph := st.paragraph + [LineAt(c, i)])).(line := i + 1))
  {
    hide Ready, Content, Classify, SetOff, AllBlank, HeaderText, NestingStep, WaitStep, FlatStep, LineAt;
    var content := Content(c, i);
    var next := if i + 1 < 2 then Some(Content(c, i + 1)) else None;
    PlainLine(c.grammar, content, next, AttributePosition(c, st));
    ClassOfLine(c.grammar, content, next, AttributePosition(c, st));
    assert st.(header := Some(st.header.value.(author := false, revision := false))) == st;
  }

  /** Both lines of the input make one paragraph, whose whole text is split. */
  lemma InputBlocks(c: Context)
    requires c.document.source == E.INPUT && !c.grammar.directive(FIRST) && !c.grammar.directive(SECOND)
    ensures Blocks(c).Ok? && Blocks(c).value.texts == [Range(0, 10)]
  {
    hide Ready, Content, Step, Sequence, FlushParagraph, FlushOrphan, LineAt;
    InputContents(c);
    var st := Initial(0, true);
    InputStep(c, st, 0);
    SequenceUnfolds(c, st, 2, 1);
    var second := BodySeen(st.(paragraph := [LineAt(c, 0)])).(line := 1);
    assert st.paragraph + [LineAt(c, 0)] == [LineAt(c, 0)];
    InputStep(c, second, 1);
    SequenceUnfolds(c, second, 2, 1);
    var last := BodySeen(second.(paragraph := [LineAt(c, 0)] + [LineAt(c, 1)])).(line := 2);
    SequenceEnds(c, last, 2, 1);
    InputFlush(c, last);
  }

  lemma InputFlush(c: Context, st: State)
    requires c.document.source == E.INPUT && st.texts == [] && st.pending == NOTHING
    requires LineCount(c) == 2 && st.paragraph == [LineAt(c, 0), LineAt(c, 1)]
    requires LineAt(c, 0) == MakeLine(0, 7, 8, Lf) && LineAt(c, 1) == MakeLine(8, 10, 10, NoEnding)
    ensures FlushParagraph(c, st).Ok? && FlushOrphan(FlushParagraph(c, st).value).texts == [Range(0, 10)]
  {
    hide Ready, BrokenNodes, AdmonitionOffset;
    E.InputIsValid();
    assert E.INPUT[0..10] == E.INPUT;
    assert NextUnit(E.INPUT, 0, ':').None? by { NoColon(E.INPUT, 0); }
    assert AdmonitionOffset(E.INPUT) == 0 by { NoAdmonition(E.INPUT); }
  }

  lemma NoAdmonition(v: Text)
    requires NextUnit(v, 0, ':').None?
    ensures AdmonitionOffset(v) == 0
  {
  }

  lemma {:induction false} NoColon(v: Text, i: nat)
    requires ':' !in v
    ensures NextUnit(v, i, ':').None?
    decreases |v| - i
  {
    if i < |v| {
      NoColon(v, i + 1);
    }
  }

  /** The input has blocks, but no tree: whatever the limits and the grammars that are not
      modelled, as long as its lines are no preprocessor directives. */
  lemma InputHasNoTree(c: Context)
    requires c.document.source == E.INPUT && !c.grammar.directive(FIRST) && !c.grammar.directive(SECOND)
    ensures Blocks(c).Ok? && !AllLand(c, Blocks(c).value.texts)
  {
    hide Ready, Blocks, P.ParsedSegment, N.AllBreaksLand;
    InputBlocks(c);
    E.InputIsValid();
    var r := Range(0, 10);
    assert TextOf(c.document.source, r) == Some(E.INPUT) by { assert E.INPUT[0..10] == E.INPUT; }
    E.InputDoesNotLand(c.words, 0, c.config);
    assert r in Blocks(c).value.texts;
    assert !Lands(c, r);
  }
}
