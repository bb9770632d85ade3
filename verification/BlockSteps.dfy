/** The invariant is kept by the operations that do not recurse. */
module BlockSteps {
  import opened Text
  import opened Source
  import opened BlockGrammar
  import opened BlockModel
  import opened BlockState
  import opened BlockTiling
  import opened Delimiter
  import N = InlineNodes
  import S = Syntax

  /** A block without waiting lines, over lines `[m, b)`. */
  ghost predicate BlockOver(c: Context, n: S.Node, m: nat, b: nat, end: nat) {
    NodeOver(c, n, m, b) && Opens(c, n, m, m, b, end)
  }

  lemma RowWithin(nodes: seq<S.Node>, lo: nat, hi: nat, low: nat, high: nat)
    requires N.Row(nodes, lo, hi) && low <= lo && hi <= high
    ensures N.Row(nodes, low, high)
  {
    hide S.NoTokensAll;
    S.ChainedEarlier(nodes, lo, low);
  }

  /** The node a block becomes when the lines `s` wait for it. */
  function Prefixed(n: S.Node, s: seq<S.Node>, range: TextRange): S.Node {
    S.Node(n.kind, range, s + n.children)
  }

  lemma PrefixOpens(c: Context, n: S.Node, s: seq<S.Node>, f: nat, m: nat, b: nat, end: nat)
    requires Opens(c, n, m, m, b, end) && Waiting(c, s, f) && f + |s| == m
    ensures Opens(c, Prefixed(n, s, Span(c, f, b)), f, m, b, end)
  {
    hide Ready, Tiled, WaitingLine, MadeOf, Opening, Content, Compound, BodyOf, DelimiterOf, Holds;
    assert n.children[m - m..] == n.children;
    var p := Prefixed(n, s, Span(c, f, b));
    assert p.children[..m - f] == s;
    assert p.children[m - f..] == n.children;
    if n.kind == S.DelimitedBlock && DelimiterOf(Content(c, m)).Some? && Compound(DelimiterOf(Content(c, m)).value) {
      assert p.children[m - f + 1..] == n.children[1..];
    }
  }

  lemma PrefixOver(c: Context, n: S.Node, s: seq<S.Node>, f: nat, m: nat, b: nat)
    requires NodeOver(c, n, m, b) && Waiting(c, s, f) && f + |s| == m
    ensures NodeOver(c, Prefixed(n, s, Span(c, f, b)), f, b)
    ensures S.AllWellNested(c.document.source, s + n.children) <==> S.AllWellNested(c.document.source, n.children)
  {
    hide Ready, Waiting, N.Row, LineStart, S.AllWellNested;
    WaitingRow(c, s, f);
    N.RowAppend(s, n.children, Span(c, f, m).start, Span(c, f, m).end, Span(c, m, b).end);
    N.WellNestedAppend(c.document.source, s, n.children);
  }

  lemma OpensIsPlaced(c: Context, n: S.Node, a: nat, m: nat, b: nat, end: nat)
    requires NodeOver(c, n, a, b) && Opens(c, n, a, m, b, end)
    ensures Placed(c, n, a, b, end)
  {
    hide NodeOver, Opens, Orphan;
  }

  lemma OneMore(c: Context, done: seq<S.Node>, n: S.Node, a: nat, b: nat)
    requires NodeOver(c, n, a, b)
    ensures S.AllWellNested(c.document.source, done + [n])
       <==> S.AllWellNested(c.document.source, done) && S.AllWellNested(c.document.source, n.children)
  {
    hide Ready, NodeOver, S.AllWellNested, S.WellNested;
    NodeOverNests(c, n, a, b);
    N.OneNode(c.document.source, n);
    N.WellNestedAppend(c.document.source, done, [n]);
  }

  /** The last block takes the lines that wait for it. */
  lemma AttachKeeps(c: Context, st: State, done: seq<S.Node>, n: S.Node, start: nat, f: nat, m: nat, b: nat, end: nat)
    requires st.blocks == done + [n] && start <= f && f + |st.pending.syntax| == m
    requires Tiled(c, done, start, f, end) && PendingFits(c, st.pending, f) && BlockOver(c, n, m, b, end)
    ensures var r := AttachPending(st);
      && r.Ok? && r.value == st.(pending := NOTHING, blocks := r.value.blocks)
      && Tiled(c, r.value.blocks, start, b, end)
      && (S.AllWellNested(c.document.source, r.value.blocks)
          <==> S.AllWellNested(c.document.source, done) && S.AllWellNested(c.document.source, n.children))
  {
    hide Ready, LineStart, Tiled, NodeOver, Opens, Waiting, S.AllWellNested, N.Row;
    NodeOverRange(c, n, m, b);
    if st.pending.syntax == [] {
      OpensIsPlaced(c, n, m, m, b, end);
      TiledAppend(c, done, n, start, m, b, end);
      OneMore(c, done, n, m, b);
    } else {
      var p := Prefixed(n, st.pending.syntax, Span(c, f, b));
      PendingRange(c, st.pending, f);
      AttachedIs(st, done, n, p);
      PrefixOpens(c, n, st.pending.syntax, f, m, b, end);
      PrefixOver(c, n, st.pending.syntax, f, m, b);
      OpensIsPlaced(c, p, f, m, b, end);
      TiledAppend(c, done, p, start, f, b, end);
      OneMore(c, done, p, f, b);
    }
  }

  lemma AttachedIs(st: State, done: seq<S.Node>, n: S.Node, p: S.Node)
    requires st.blocks == done + [n] && st.pending.range.Some? && st.pending.range.value.start <= n.range.end
    requires p == Prefixed(n, st.pending.syntax, Range(st.pending.range.value.start, n.range.end))
    ensures AttachPending(st) == Ok(st.(pending := NOTHING, blocks := done + [p]))
  {
    assert st.blocks[..|st.blocks| - 1] == done;
  }

  lemma PendingRange(c: Context, p: Pending, f: nat)
    requires PendingFits(c, p, f) && p.syntax != []
    ensures 0 < MetadataCount(p.syntax) <= |p.syntax| && f + |p.syntax| <= LineCount(c)
    ensures p.range == Some(Span(c, f, f + MetadataCount(p.syntax)))
    ensures p.range.value.start == LineStart(c, f)
    ensures forall b :: f + |p.syntax| <= b <= LineCount(c) ==>
      p.range.value.start <= Span(c, f, b).end && Span(c, f, b) == Range(p.range.value.start, LineStart(c, b))
  {
    hide Ready, LineStart, WaitingLine;
  }

  // ---------------------------------------------------------------- paragraphs

  lemma ParagraphOffsets(c: Context, p: nat, b: nat)
    requires p < b <= LineCount(c) && forall j :: p <= j < b ==> ParagraphLine(c, j)
    ensures var v, from, end := c.document.source, LineAt(c, p).content.start, LineAt(c, b - 1).content.end;
      && Span(c, p, b) == Range(LineAt(c, p).full.start, LineAt(c, b - 1).full.end)
      && LineStart(c, p) == from <= end <= LineStart(c, b) <= |v| && Boundary(v, from) && Boundary(v, end) && Valid(v)
  {
    hide ParagraphLine;
    LineFacts(c, p);
    LineFacts(c, b - 1);
    LinesAscend(c, p, b - 1);
  }

  /** Cutting the admonition label off a text leaves whole characters. */
  lemma AdmonitionLands(v: Text, from: nat, end: nat)
    requires Valid(v) && from <= end <= |v| && Boundary(v, from) && Boundary(v, end)
    ensures TextOf(v, Range(from + AdmonitionOffset(v[from..end]), end)).Some?
  {
    hide AdmonitionOffset, Valid;
    SliceIsValid(v, from, end);
    var offset := AdmonitionOffset(v[from..end]);
    if 0 < offset {
      AsciiIsWhole(v[from..end], offset - 1);
    }
  }

  lemma ParagraphIsBlock(c: Context, s: seq<Line>, p: nat, end: nat)
    requires ParagraphFits(c, s, p) && s != [] && ParagraphEnds(c, p + |s|, end)
    ensures var r := ParagraphNode(c, s);
      && r.Ok? && BlockOver(c, r.value.0, p, p + |s|, end)
      && (S.AllWellNested(c.document.source, r.value.0.children) <==> Lands(c, r.value.1))
  {
    hide Ready, LineStart, ParagraphLine, AdmonitionOffset, BrokenNodes, N.Row, S.AllWellNested, Lands, Valid, Boundary,
      Holds, MadeOf, Opens;
    var b := p + |s|;
    ParagraphOffsets(c, p, b);
    var v, from, to_ := c.document.source, LineAt(c, p).content.start, LineAt(c, b - 1).content.end;
    AdmonitionLands(v, from, to_);
    var body := Range(from + AdmonitionOffset(v[from..to_]), to_);
    BrokenNodesRow(c, body);
    RowWithin(BrokenNodes(c, body), body.start, body.end, LineStart(c, p), LineStart(c, b));
    LinesAscend(c, p, b);
    var n := S.Node(S.Paragraph, Span(c, p, b), BrokenNodes(c, body));
    assert ParagraphNode(c, s) == Ok((n, body)) by {
      assert TextOf(v, Range(from, to_)) == Some(v[from..to_]);
    }
    ParagraphIsMade(c, p, b, body, end);
    NothingWaits(c, n, p, b, end);
  }

  lemma ParagraphIsMade(c: Context, p: nat, b: nat, body: TextRange, end: nat)
    requires p < b <= LineCount(c) && (forall j :: p <= j < b ==> ParagraphLine(c, j)) && ParagraphEnds(c, b, end)
    requires ParagraphBody(c, p, b, body)
    ensures MadeOf(c, S.Paragraph, p, b, end) && Holds(c, S.Paragraph, BrokenNodes(c, body), p, b, end)
  {
    hide Ready, ParagraphLine, ParagraphEnds, ParagraphBody, BrokenNodes, Content;
  }

  /** A block before which no line waits. */
  lemma NothingWaits(c: Context, n: S.Node, m: nat, b: nat, end: nat)
    requires m < b <= LineCount(c) && MadeOf(c, n.kind, m, b, end) && n.kind != S.DelimitedBlock
    requires Holds(c, n.kind, n.children, m, b, end)
    ensures Opens(c, n, m, m, b, end)
  {
    hide MadeOf, WaitingLine, Holds;
    assert n.children[..0] == [] && n.children[m - m..] == n.children;
  }

  /** Closing the paragraph keeps the invariant; if there was one, nothing waits any more. */
  lemma FlushParagraphKeeps(c: Context, st: State, start: nat, end: nat)
    requires Inv(c, st, start, end) && (st.paragraph == [] || ParagraphEnds(c, st.line, end))
    ensures var r := FlushParagraph(c, st);
      && r.Ok? && Inv(c, r.value, start, end) && r.value.paragraph == []
      && r.value == st.(paragraph := [], pending := r.value.pending, blocks := r.value.blocks, texts := r.value.texts)
      && (st.paragraph == [] ==> r.value == st)
      && (st.paragraph != [] ==> r.value.pending == NOTHING)
  {
    hide Ready, Tiled, BlockOver, PendingFits, AttachPending, ParagraphNode, S.AllWellNested, Lands, LineCount,
      ParagraphLine;
    if st.paragraph != [] {
      var f, p := Flushed(st), ParagraphStart(st);
      ParagraphIsBlock(c, st.paragraph, p, end);
      var (node, body) := ParagraphNode(c, st.paragraph).value;
      var added := st.(paragraph := [], blocks := st.blocks + [node], texts := st.texts + [body]);
      PendingLength(c, st.pending, f);
      AttachKeeps(c, added, st.blocks, node, start, f, p, st.line, end);
      LandsOneMore(c, st.texts, body);
      NothingPends(c, st.line);
      NoParagraph(c, st.line);
    }
  }

  lemma PendingLength(c: Context, p: Pending, f: nat)
    requires PendingFits(c, p, f)
    ensures f + |p.syntax| <= LineCount(c)
  {
  }

  lemma LandsOneMore(c: Context, texts: seq<TextRange>, r: TextRange)
    ensures AllLand(c, texts + [r]) <==> AllLand(c, texts) && Lands(c, r)
  {
    hide Lands;
    assert forall x :: x in texts + [r] <==> x in texts || x == r;
  }

  lemma NothingPends(c: Context, f: nat)
    requires f <= LineCount(c)
    ensures PendingFits(c, NOTHING, f)
  {
  }

  lemma NoParagraph(c: Context, p: nat)
    requires p <= LineCount(c)
    ensures ParagraphFits(c, [], p)
  {
  }

  // ---------------------------------------------------------------- adding blocks

  /** A block over the current line and after adds itself and takes what waits. */
  lemma CommitBlockKeeps(c: Context, st: State, n: S.Node, texts: seq<TextRange>, start: nat, next: nat, end: nat)
    requires Inv(c, st, start, end) && st.paragraph == [] && next <= end
    requires BlockOver(c, n, st.line, next, end)
    requires S.AllWellNested(c.document.source, n.children) <==> AllLand(c, texts)
    ensures var r := CommitBlock(st, n, texts, next, end);
      && r.Ok? && Inv(c, r.value, start, end)
      && r.value == st.(line := next, pending := NOTHING, blocks := r.value.blocks, texts := st.texts + texts)
  {
    hide Ready, Tiled, PendingFits, AttachPending, S.AllWellNested, AllLand, ParagraphLine, NodeOver, Opens;
    var f := Flushed(st);
    NodeOverRange(c, n, st.line, next);
    var added := st.(line := next, blocks := st.blocks + [n], texts := st.texts + texts);
    AttachKeeps(c, added, st.blocks, n, start, f, st.line, next, end);
    LandsAppend(c, st.texts, texts);
    NothingPends(c, next);
    NoParagraph(c, next);
  }

  lemma LandsAppend(c: Context, a: seq<TextRange>, b: seq<TextRange>)
    ensures AllLand(c, a + b) <==> AllLand(c, a) && AllLand(c, b)
  {
    hide Lands;
    assert forall x :: x in a + b <==> x in a || x in b;
  }

  /** A block that nothing waits for, added to blocks that reach the current line. */
  lemma PlainBlockKeeps(c: Context, st: State, n: S.Node, start: nat, next: nat, end: nat)
    requires Inv(c, st, start, end) && st.paragraph == [] && st.pending == NOTHING && next <= end
    requires BlockOver(c, n, st.line, next, end) && S.AllWellNested(c.document.source, n.children)
    ensures Inv(c, st.(line := next, blocks := st.blocks + [n]), start, end)
  {
    hide Ready, Tiled, PendingFits, S.AllWellNested, AllLand, ParagraphLine, NodeOver, Opens;
    NodeOverRange(c, n, st.line, next);
    OpensIsPlaced(c, n, st.line, st.line, next, end);
    TiledAppend(c, st.blocks, n, start, st.line, next, end);
    OneMore(c, st.blocks, n, st.line, next);
    NothingPends(c, next);
    NoParagraph(c, next);
  }

  /** A block with one child or none, over one line. */
  lemma LeafIsBlock(c: Context, kind: S.Kind, j: nat, end: nat)
    requires j < LineCount(c) && S.IsBlock(kind) && kind != S.DelimitedBlock && MadeOf(c, kind, j, j + 1, end)
    requires Holds(c, kind, [], j, j + 1, end)
    ensures BlockOver(c, S.Leaf(kind, LineAt(c, j).full), j, j + 1, end) && S.AllWellNested(c.document.source, [])
  {
    hide Ready, LineStart, MadeOf;
    LineSpan(c, j);
    LinesAscend(c, j, j + 1);
    NothingWaits(c, S.Leaf(kind, LineAt(c, j).full), j, j + 1, end);
  }

  // ---------------------------------------------------------------- orphans

  lemma WaitingHasText(c: Context, n: S.Node, j: nat)
    requires j < LineCount(c) && WaitingLine(c, n, j)
    ensures LineStart(c, j) < LineStart(c, j + 1)
  {
    hide Ready;
    LineFacts(c, j);
  }

  /** The pending nodes that start before the end of the metadata are those up to the last
      metadata line. */
  lemma {:induction false} AttachedCount(c: Context, s: seq<S.Node>, a: nat, m: nat)
    requires Waiting(c, s, a) && m <= |s|
    ensures Attached(s, LineStart(c, a + m)) == m
    decreases |s|
  {
    hide Ready, LineStart, WaitingLine;
    if s != [] {
      assert WaitingLine(c, s[0], a + 0);
      LeafStart(c, s[0], a);
      if m > 0 {
        WaitingHasText(c, s[0], a);
        LinesAscend(c, a + 1, a + m);
        WaitingTail(c, s, a);
        AttachedCount(c, s[1..], a + 1, m - 1);
      }
    }
  }

  lemma LeafStart(c: Context, n: S.Node, j: nat)
    requires j < LineCount(c) && WaitingLine(c, n, j)
    ensures n.range.start == LineStart(c, j)
  {
    hide Ready;
  }

  lemma WaitingTail(c: Context, s: seq<S.Node>, a: nat)
    requires Waiting(c, s, a) && s != []
    ensures Waiting(c, s[1..], a + 1)
  {
    hide WaitingLine;
    forall i | 0 <= i < |s| - 1 ensures WaitingLine(c, s[1..][i], a + 1 + i) {
      assert WaitingLine(c, s[i + 1], a + (i + 1));
    }
  }

  lemma WaitingParts(c: Context, s: seq<S.Node>, a: nat, m: nat)
    requires Waiting(c, s, a) && m <= |s|
    ensures Waiting(c, s[..m], a) && Waiting(c, s[m..], a + m)
  {
    hide WaitingLine;
    forall i | 0 <= i < |s| - m ensures WaitingLine(c, s[m..][i], a + m + i) {
      assert WaitingLine(c, s[m + i], a + (m + i));
    }
  }

  lemma {:induction false} CommentsAfter(s: seq<S.Node>)
    ensures forall i :: MetadataCount(s) <= i < |s| ==> s[i].kind == S.CommentLine
    decreases |s|
  {
    if s != [] && s[|s| - 1].kind == S.CommentLine {
      CommentsAfter(s[..|s| - 1]);
    }
  }

  lemma OrphanIsPlaced(c: Context, s: seq<S.Node>, a: nat, end: nat)
    requires Waiting(c, s, a) && s != []
    ensures a + |s| <= LineCount(c)
    ensures var r := Span(c, a, a + |s|); var n := S.Node(S.Unsupported, r, [S.Node(S.Unknown, r, s)]);
      && NodeOver(c, n, a, a + |s|) && Placed(c, n, a, a + |s|, end) && S.AllWellNested(c.document.source, n.children)
  {
    hide Ready, LineStart, WaitingLine, N.Row, S.AllWellNested;
    var b := a + |s|;
    var r := Span(c, a, b);
    var inner := S.Node(S.Unknown, r, s);
    WaitingRow(c, s, a);
    SpanIsText(c, a, b);
    RowNode(c.document.source, inner);
    var n := S.Node(S.Unsupported, r, [inner]);
    assert |s| == b - a && Waiting(c, s, a) && n.children == [S.Node(S.Unknown, Span(c, a, b), s)];
  }

  /** A node whose children are a row of well-nested nodes is one itself. */
  lemma RowNode(v: Text, n: S.Node)
    requires N.Row(n.children, n.range.start, n.range.end) && S.AllWellNested(v, n.children)
    requires TextOf(v, n.range).Some? && !n.kind.TokenLeaf?
    ensures N.Row([n], n.range.start, n.range.end) && S.AllWellNested(v, [n])
  {
    hide S.AllWellNested, S.Chained, S.NoTokensAll;
    N.RowIsApart(n.children, n.range.start);
    N.OneNode(v, n);
  }

  /** Comments after orphaned metadata are blocks of their own. */
  lemma {:induction false} CommentsKeep(c: Context, done: seq<S.Node>, s: seq<S.Node>, start: nat, a: nat, end: nat)
    requires Tiled(c, done, start, a, end) && start <= a && Waiting(c, s, a)
    requires forall i :: 0 <= i < |s| ==> s[i].kind == S.CommentLine
    ensures Tiled(c, done + s, start, a + |s|, end)
    ensures S.AllWellNested(c.document.source, done + s) <==> S.AllWellNested(c.document.source, done)
    decreases |s|
  {
    hide Ready, Tiled, WaitingLine, S.AllWellNested, NodeOver, Opens, LineAt;
    if s == [] {
      assert done + s == done;
    } else {
      assert WaitingLine(c, s[0], a + 0);
      CommentIsBlock(c, s[0], a, end);
      OpensIsPlaced(c, s[0], a, a, a + 1, end);
      TiledAppend(c, done, s[0], start, a, a + 1, end);
      OneMore(c, done, s[0], a, a + 1);
      WaitingTail(c, s, a);
      CommentsKeep(c, done + [s[0]], s[1..], start, a + 1, end);
      assert done + s == done + [s[0]] + s[1..];
    }
  }

  lemma CommentIsBlock(c: Context, n: S.Node, j: nat, end: nat)
    requires j < LineCount(c) && WaitingLine(c, n, j) && n.kind == S.CommentLine
    ensures BlockOver(c, n, j, j + 1, end) && n.children == [] && S.AllWellNested(c.document.source, n.children)
  {
    hide Ready, NodeOver, Opens;
    LeafIsBlock(c, S.CommentLine, j, end);
  }

  /** Orphaned metadata becomes a block; nothing waits after that. */
  lemma FlushOrphanKeeps(c: Context, st: State, start: nat, end: nat)
    requires Inv(c, st, start, end) && st.paragraph == []
    ensures var r := FlushOrphan(st);
      Inv(c, r, start, end) && r == st.(pending := NOTHING, blocks := r.blocks) && (st.pending == NOTHING ==> r == st)
  {
    hide Ready, Tiled, Waiting, S.AllWellNested, AllLand, LineStart, NodeOver, Placed, LineCount;
    var s, f := st.pending.syntax, Flushed(st);
    if s != [] {
      var m := MetadataCount(s);
      PendingRange(c, st.pending, f);
      AttachedCount(c, s, f, m);
      WaitingParts(c, s, f, m);
      OrphanIsPlaced(c, s[..m], f, end);
      var r := Span(c, f, f + m);
      var orphan := S.Node(S.Unsupported, r, [S.Node(S.Unknown, r, s[..m])]);
      TiledAppend(c, st.blocks, orphan, start, f, f + m, end);
      OneMore(c, st.blocks, orphan, f, f + m);
      CommentsAfter(s);
      CommentsKeep(c, st.blocks + [orphan], s[m..], start, f + m, end);
      NothingPends(c, st.line);
    }
  }
}
