/** Hard line breaks inside inline text, and the syntax nodes of inline content. */
module InlineNodes {
  import opened Text
  import opened InlineModel
  import Source
  import S = Syntax

  // ---------------------------------------------------------------- hard breaks

  /** ` +` before a line ending. */
  predicate BreakAt(value: Text, m: nat) {
    StartsWith(value, m, " +\n") || StartsWith(value, m, " +\r\n")
  }

  /** Where the marker before the newline at `n` starts, when there is one. */
  function MarkerBefore(value: Text, n: nat): (r: Option<nat>)
    requires n < |value| && value[n] == '\n'
    ensures r.Some? ==> r.value + 2 <= n <= r.value + 3 && BreakAt(value, r.value)
    ensures r.Some? ==>
      value[r.value] == ' ' && value[r.value + 1] == '+' && (n == r.value + 3 ==> value[n - 1] == '\r')
  {
    var end := if n > 0 && value[n - 1] == '\r' then n - 1 else n;
    if end < 2 || value[end - 2..end] != " +" then None
    else
      assert value[end - 2..end][0] == value[end - 2] && value[end - 2..end][1] == value[end - 1];
      Some(end - 2)
  }

  function Relative(r: TextRange, from: nat, end: nat): TextRange
    requires from <= end
  {
    Range(r.start + from, r.start + end)
  }

  function TextPiece(r: TextRange, value: Text, from: nat, end: nat): seq<Inline>
    requires from <= end <= |value|
  {
    if from < end then [PlainText(Relative(r, from, end), value[from..end])] else []
  }

  /** Splits `value[cursor..]` at the hard breaks whose newline is at or after `i`. Offsets in
      the value are taken as offsets in the range. */
  function SplitFrom(r: TextRange, value: Text, cursor: nat, i: nat): seq<Inline>
    requires cursor <= i <= |value| && (0 < cursor ==> value[cursor - 1] == '\n')
    decreases |value| - i
  {
    if i == |value| then TextPiece(r, value, cursor, |value|)
    else if value[i] == '\n' && MarkerBefore(value, i).Some? then
      var m := MarkerBefore(value, i).value;
      TextPiece(r, value, cursor, m) + [HardBreak(Relative(r, m, i + 1))] + SplitFrom(r, value, i + 1, i + 1)
    else SplitFrom(r, value, cursor, i + 1)
  }

  function SplitOne(x: Inline): seq<Inline>
    decreases x, 0
  {
    match x
    case PlainText(r, value) => SplitFrom(r, value, 0, 0)
    case Styled(style, r, c, children) => [Styled(style, r, c, SplitHardBreaks(children))]
    case Link(r, c, l, caption) => [Link(r, c, l, SplitHardBreaks(caption))]
    case Reference(r, c, l, caption) => [Reference(r, c, l, SplitHardBreaks(caption))]
    case _ => [x]
  }

  /** Replaces the hard breaks inside text, at every level that holds parsed content. */
  function SplitHardBreaks(s: seq<Inline>): seq<Inline>
    decreases s
  {
    if s == [] then [] else SplitHardBreaks(s[..|s| - 1]) + SplitOne(s[|s| - 1])
  }

  // ---------------------------------------------------------------- syntax nodes

  predicate Shaped(x: Inline)
    decreases x
  {
    match x
    case PlainText(r, value) => |value| <= r.end - r.start
    case HardBreak(_) => true
    case Styled(_, r, c, children) => r.start <= c.start && c.end <= r.end && Rowed(children, c.start, c.end)
    case Link(r, c, None, caption) => r.start <= c.start && c.end <= r.end && caption == []
    case Link(r, c, Some(l), caption) =>
      r.start <= c.start && c.end <= l.start && l.end <= r.end && Rowed(caption, l.start, l.end)
    case Reference(r, c, None, caption) => r.start <= c.start && c.end <= r.end && caption == []
    case Reference(r, c, Some(l), caption) =>
      r.start <= c.start && c.end <= l.start && l.end <= r.end && Rowed(caption, l.start, l.end)
    case _ => x.range.start <= x.content.start && x.content.end <= x.range.end
  }

  /** Inlines in source order, inside `[lo, hi)`, at every level. */
  predicate Rowed(s: seq<Inline>, lo: nat, hi: nat)
    decreases s
  {
    if s == [] then lo <= hi
    else
      var x := s[|s| - 1];
      lo <= x.range.start && x.range.end <= hi && Shaped(x) && Rowed(s[..|s| - 1], lo, x.range.start)
  }

  function Span(r: TextRange, c: TextRange, content: seq<S.Node>): S.Node
    requires r.start <= c.start && c.end <= r.end
  {
    S.Node(S.InlineSpan, r,
           [S.Leaf(S.InlineDelimiter, Range(r.start, c.start))] + content
           + if c.end < r.end then [S.Leaf(S.InlineDelimiter, Range(c.end, r.end))] else [])
  }

  function MacroNode(r: TextRange, target: TextRange, captionRange: Option<TextRange>, caption: seq<S.Node>): S.Node {
    S.Node(S.Macro, r,
           [S.Leaf(S.Target, target)]
           + match captionRange case None => [] case Some(l) => [S.Node(S.LabelNode, l, caption)])
  }

  function NodeOf(x: Inline): seq<S.Node>
    requires Shaped(x)
    decreases x, 0
  {
    match x
    case PlainText(_, _) => []
    case HardBreak(r) => [S.Leaf(S.HardBreak, r)]
    case Styled(_, r, c, children) => [Span(r, c, Nodes(children, c.start, c.end))]
    case Link(r, c, l, caption) =>
      [MacroNode(r, c, l, match l case None => [] case Some(b) => Nodes(caption, b.start, b.end))]
    case Reference(r, c, l, caption) =>
      [MacroNode(r, c, l, match l case None => [] case Some(b) => Nodes(caption, b.start, b.end))]
    case Literal(r, c, _) => [Span(r, c, [])]
    case Passthrough(_, r, c, _) => [Span(r, c, [])]
    case AttributeReference(r, c, _) => [MacroNode(r, c, None, [])]
    case Formula(r, c, _, _, _) => [MacroNode(r, c, None, [])]
    case Macro(_, _, r, c, _, _) => [MacroNode(r, c, None, [])]
  }

  /** One syntax node per inline that is not plain text. */
  function Nodes(s: seq<Inline>, lo: nat, hi: nat): seq<S.Node>
    requires Rowed(s, lo, hi)
    decreases s
  {
    if s == [] then [] else Nodes(s[..|s| - 1], lo, s[|s| - 1].range.start) + NodeOf(s[|s| - 1])
  }

  /** Annotations in order inside `[lo, hi)`, none of them a token. */
  predicate Row(nodes: seq<S.Node>, lo: nat, hi: nat) {
    lo <= hi && S.Chained(nodes, lo) && S.Inside(nodes, Range(lo, hi)) && S.NoTokensAll(nodes)
  }

  lemma {:induction false} RowAppend(a: seq<S.Node>, b: seq<S.Node>, lo: nat, mid: nat, hi: nat)
    requires Row(a, lo, mid) && Row(b, mid, hi)
    ensures Row(a + b, lo, hi)
    decreases |a|
  {
    if a == [] {
      assert a + b == b;
    } else {
      var first := a[0].range;
      assert a[0] in a;
      S.ChainedIsLater(a[1..], first.end);
      assert forall y :: y in a <==> y == a[0] || y in a[1..];
      assert forall y :: y in a[1..] ==> y in a && first.end <= y.range.start;
      RowAppend(a[1..], b, first.end, mid, hi);
      assert (a + b)[1..] == a[1..] + b;
      assert forall y :: y in a + b <==> y == a[0] || y in a[1..] + b;
    }
  }

  lemma {:induction false} RowIsApart(nodes: seq<S.Node>, lo: nat)
    requires S.Chained(nodes, lo)
    ensures S.AllApart(nodes)
    decreases |nodes|
  {
    if nodes != [] {
      S.ChainedIsLater(nodes[1..], nodes[0].range.end);
      RowIsApart(nodes[1..], nodes[0].range.end);
    }
  }

  lemma {:induction false} WellNestedAppend(v: Text, a: seq<S.Node>, b: seq<S.Node>)
    ensures S.AllWellNested(v, a + b) <==> S.AllWellNested(v, a) && S.AllWellNested(v, b)
    decreases |a|
  {
    if a == [] {
      assert a + b == b;
    } else {
      assert (a + b)[1..] == a[1..] + b;
      WellNestedAppend(v, a[1..], b);
    }
  }

  /** Whether every range that becomes a syntax node starts and ends on a boundary. */
  predicate LandedOne(v: Text, x: Inline)
    decreases x, 0
  {
    match x
    case PlainText(_, _) => true
    case HardBreak(r) => Source.TextOf(v, r).Some?
    case Styled(_, r, c, children) =>
      Source.TextOf(v, r).Some? && Source.TextOf(v, c).Some? && Landed(v, children)
    case Link(r, c, l, caption) =>
      && Source.TextOf(v, r).Some? && Source.TextOf(v, c).Some?
      && (l.Some? ==> Source.TextOf(v, l.value).Some? && Landed(v, caption))
    case Reference(r, c, l, caption) =>
      && Source.TextOf(v, r).Some? && Source.TextOf(v, c).Some?
      && (l.Some? ==> Source.TextOf(v, l.value).Some? && Landed(v, caption))
    case _ => Source.TextOf(v, x.range).Some? && Source.TextOf(v, x.content).Some?
  }

  predicate Landed(v: Text, s: seq<Inline>)
    decreases s
  {
    s == [] || (Landed(v, s[..|s| - 1]) && LandedOne(v, s[|s| - 1]))
  }

  lemma OneNode(v: Text, n: S.Node)
    requires S.NoTokens(n)
    ensures Row([n], n.range.start, n.range.end)
    ensures S.AllWellNested(v, [n]) <==> S.WellNested(v, n)
  {
    assert [n][1..] == [];
    assert S.Chained([], n.range.end) && S.NoTokensAll([]);
  }

  lemma LeafRow(v: Text, kind: S.Kind, r: TextRange)
    requires !kind.TokenLeaf?
    ensures S.NoTokens(S.Leaf(kind, r))
    ensures Row([S.Leaf(kind, r)], r.start, r.end)
    ensures S.AllWellNested(v, [S.Leaf(kind, r)]) <==> Source.TextOf(v, r).Some?
  {
    OneNode(v, S.Leaf(kind, r));
  }

  lemma SpanRow(v: Text, r: TextRange, c: TextRange, content: seq<S.Node>)
    requires r.start <= c.start && c.end <= r.end && Row(content, c.start, c.end)
    ensures Row([Span(r, c, content)], r.start, r.end)
    ensures S.AllWellNested(v, [Span(r, c, content)])
       <==> Source.TextOf(v, r).Some? && Source.TextOf(v, c).Some? && S.AllWellNested(v, content)
  {
    hide S.AllWellNested, S.NoTokensAll, S.Chained;
    var opener := [S.Leaf(S.InlineDelimiter, Range(r.start, c.start))];
    var closer := if c.end < r.end then [S.Leaf(S.InlineDelimiter, Range(c.end, r.end))] else [];
    LeafRow(v, S.InlineDelimiter, Range(r.start, c.start));
    if c.end < r.end {
      LeafRow(v, S.InlineDelimiter, Range(c.end, r.end));
    } else {
      NoNodes(v, r.end);
    }
    RowAppend(opener, content, r.start, c.start, c.end);
    RowAppend(opener + content, closer, r.start, c.end, r.end);
    RowIsApart(opener + content + closer, r.start);
    WellNestedAppend(v, opener + content, closer);
    WellNestedAppend(v, opener, content);
    OneNode(v, Span(r, c, content));
  }

  lemma EmptyRow(v: Text, r: TextRange)
    ensures Row([], r.start, r.end) && S.AllWellNested(v, [])
  {
  }

  lemma NoNodes(v: Text, at: nat)
    ensures Row([], at, at) && S.AllWellNested(v, [])
  {
  }

  lemma MacroRow(v: Text, r: TextRange, c: TextRange, l: Option<TextRange>, caption: seq<S.Node>)
    requires r.start <= c.start && c.end <= r.end
    requires l.Some? ==> c.end <= l.value.start && l.value.end <= r.end && Row(caption, l.value.start, l.value.end)
    ensures Row([MacroNode(r, c, l, caption)], r.start, r.end)
    ensures S.AllWellNested(v, [MacroNode(r, c, l, caption)])
       <==> Source.TextOf(v, r).Some? && Source.TextOf(v, c).Some?
            && (l.Some? ==> Source.TextOf(v, l.value).Some? && S.AllWellNested(v, caption))
  {
    hide S.AllWellNested, S.NoTokensAll, S.Chained;
    var target := S.Leaf(S.Target, c);
    LeafRow(v, S.Target, c);
    if l.Some? {
      var node := S.Node(S.LabelNode, l.value, caption);
      RowIsApart(caption, l.value.start);
      OneNode(v, node);
      RowGap([target], [node], c.start, c.end, l.value.start, l.value.end);
      RowIsApart([target] + [node], c.start);
      WellNestedAppend(v, [target], [node]);
    } else {
      RowIsApart([target], c.start);
      assert [target] + [] == [target];
    }
    OneNode(v, MacroNode(r, c, l, caption));
  }

  lemma RowGap(a: seq<S.Node>, b: seq<S.Node>, lo: nat, aEnd: nat, bStart: nat, hi: nat)
    requires Row(a, lo, aEnd) && aEnd <= bStart && Row(b, bStart, hi)
    ensures Row(a + b, lo, hi)
  {
    RowAppend(a, b, lo, bStart, hi);
  }

  lemma {:induction false} NodeOfRow(v: Text, x: Inline)
    requires Shaped(x)
    ensures Row(NodeOf(x), x.range.start, x.range.end)
    ensures S.AllWellNested(v, NodeOf(x)) <==> LandedOne(v, x)
    decreases x, 0
  {
    hide S.AllWellNested, S.NoTokensAll, S.Chained, Row, S.WellNested;
    match x
    case PlainText(r, _) => EmptyRow(v, r);
    case HardBreak(r) => LeafRow(v, S.HardBreak, r);
    case Styled(_, r, c, children) =>
      NodesRow(v, children, c.start, c.end);
      SpanRow(v, r, c, Nodes(children, c.start, c.end));
    case Link(r, c, l, caption) =>
      if l.Some? {
        NodesRow(v, caption, l.value.start, l.value.end);
        MacroRow(v, r, c, l, Nodes(caption, l.value.start, l.value.end));
      } else {
        MacroRow(v, r, c, l, []);
      }
    case Reference(r, c, l, caption) =>
      if l.Some? {
        NodesRow(v, caption, l.value.start, l.value.end);
        MacroRow(v, r, c, l, Nodes(caption, l.value.start, l.value.end));
      } else {
        MacroRow(v, r, c, l, []);
      }
    case Literal(r, c, _) => EmptyRow(v, c); SpanRow(v, r, c, []);
    case Passthrough(_, r, c, _) => EmptyRow(v, c); SpanRow(v, r, c, []);
    case AttributeReference(r, c, _) => MacroRow(v, r, c, None, []);
    case Formula(r, c, _, _, _) => MacroRow(v, r, c, None, []);
    case Macro(_, _, r, c, _, _) => MacroRow(v, r, c, None, []);
  }

  /** The nodes of rowed inlines are a row, and are well nested exactly when every range lands. */
  lemma {:induction false} NodesRow(v: Text, s: seq<Inline>, lo: nat, hi: nat)
    requires Rowed(s, lo, hi)
    ensures Row(Nodes(s, lo, hi), lo, hi)
    ensures S.AllWellNested(v, Nodes(s, lo, hi)) <==> Landed(v, s)
    decreases s
  {
    if s != [] {
      var x, init := s[|s| - 1], s[..|s| - 1];
      NodesRow(v, init, lo, x.range.start);
      NodeOfRow(v, x);
      RowAppend(Nodes(init, lo, x.range.start), NodeOf(x), lo, x.range.start, x.range.end);
      RowWidens(Nodes(s, lo, hi), lo, x.range.end, hi);
      WellNestedAppend(v, Nodes(init, lo, x.range.start), NodeOf(x));
    }
  }

  lemma RowWidens(nodes: seq<S.Node>, lo: nat, mid: nat, hi: nat)
    requires Row(nodes, lo, mid) && mid <= hi
    ensures Row(nodes, lo, hi)
  {
  }

  // ---------------------------------------------------------------- parsed segments and hard breaks

  /** The segment `v` is the part of the document text that starts at `base`. */
  ghost predicate Located(doc: Text, v: Text, base: nat) {
    && Valid(doc) && base + |v| <= |doc| && v == doc[base..base + |v|]
    && Boundary(doc, base) && Boundary(doc, base + |v|)
  }

  lemma LocatedRange(doc: Text, v: Text, base: nat, r: TextRange)
    requires Located(doc, v, base) && Whole(v, base, r)
    ensures Source.TextOf(doc, r).Some? && Located(doc, Slice(v, base, r), r.start)
  {
    SliceIsValid(doc, base, base + |v|);
    forall j | 0 <= j < r.end - r.start
      ensures Slice(v, base, r)[j] == doc[r.start..r.end][j]
    {
      assert v[r.start - base + j] == doc[base..base + |v|][r.start - base + j];
    }
    assert Slice(v, base, r) == doc[r.start..r.end];
  }

  lemma {:induction false} RowedAppend(a: seq<Inline>, b: seq<Inline>, lo: nat, mid: nat, hi: nat)
    requires Rowed(a, lo, mid) && Rowed(b, mid, hi)
    ensures Rowed(a + b, lo, hi)
    decreases |b|
  {
    if b == [] {
      assert a + b == a;
      RowedWidens(a, lo, mid, hi);
    } else {
      var x := b[|b| - 1];
      RowedAppend(a, b[..|b| - 1], lo, mid, x.range.start);
      RowedOrder(b[..|b| - 1], mid, x.range.start);
      RowedOrder(a, lo, mid);
      assert (a + b)[..|a + b| - 1] == a + b[..|b| - 1];
    }
  }

  lemma {:induction false} RowedOrder(s: seq<Inline>, lo: nat, hi: nat)
    requires Rowed(s, lo, hi)
    ensures lo <= hi
    decreases |s|
  {
    if s != [] {
      RowedOrder(s[..|s| - 1], lo, s[|s| - 1].range.start);
    }
  }

  lemma RowedWidens(s: seq<Inline>, lo: nat, mid: nat, hi: nat)
    requires Rowed(s, lo, mid) && mid <= hi
    ensures Rowed(s, lo, hi)
  {
  }

  lemma {:induction false} LandedAppend(doc: Text, a: seq<Inline>, b: seq<Inline>)
    ensures Landed(doc, a + b) <==> Landed(doc, a) && Landed(doc, b)
    decreases |b|
  {
    if b == [] {
      assert a + b == a;
    } else {
      assert (a + b)[..|a + b| - 1] == a + b[..|b| - 1];
      LandedAppend(doc, a, b[..|b| - 1]);
    }
  }

  /** A break found at `m` in a value from which `escape` backslashes were removed is
      reported `escape` units early; it still starts on a boundary exactly when the
      unit there is not inside a character. */
  predicate LandsAt(value: Text, escape: nat, m: nat)
    requires m < |value|
  {
    m < escape || !Continuation(value[m - escape])
  }

  predicate BreaksLandFrom(value: Text, escape: nat, i: nat)
    requires i <= |value|
    decreases |value| - i
  {
    i == |value| ||
    ((value[i] == '\n' && MarkerBefore(value, i).Some? ==> LandsAt(value, escape, MarkerBefore(value, i).value))
     && BreaksLandFrom(value, escape, i + 1))
  }

  /** No escaped text, at any level, has a hard break right after a character outside ASCII. */
  predicate BreaksLand(x: Inline)
    decreases x, 0
  {
    match x
    case PlainText(r, value) => |value| <= r.end - r.start && BreaksLandFrom(value, r.end - r.start - |value|, 0)
    case Styled(_, _, _, children) => AllBreaksLand(children)
    case Link(_, _, _, caption) => AllBreaksLand(caption)
    case Reference(_, _, _, caption) => AllBreaksLand(caption)
    case _ => true
  }

  predicate AllBreaksLand(s: seq<Inline>)
    decreases s
  {
    s == [] || (AllBreaksLand(s[..|s| - 1]) && BreaksLand(s[|s| - 1]))
  }

  lemma BreakStartLands(doc: Text, v: Text, base: nat, r: TextRange, value: Text, m: nat)
    requires Located(doc, v, base) && Faithful(PlainText(r, value), v, base) && m < |value|
    ensures r.end <= |doc| && m < r.end - r.start
    ensures Boundary(doc, r.start + m) <==> LandsAt(value, r.end - r.start - |value|, m)
  {
    assert |value| <= r.end - r.start by {
      FaithfulText(r, value, v, base);
    }
    SourceUnit(doc, v, base, r, value, m);
  }

  lemma BreakEndLands(doc: Text, v: Text, base: nat, r: TextRange, value: Text, i: nat)
    requires Located(doc, v, base) && Faithful(PlainText(r, value), v, base)
    requires 0 < i < |value| && value[i] == '\n' && value[i - 1] in "+\r"
    ensures r.start + i + 1 <= |doc| && Boundary(doc, r.start + i + 1)
  {
    hide Faithful, Located, Slice, Whole, Tiles;
    FaithfulText(r, value, v, base);
    SourceUnit(doc, v, base, r, value, i);
    if |value| == r.end - r.start {
      LocatedUnit(doc, v, base, r, r.start + i);
    } else if i + 1 < r.end - r.start {
      SourceUnit(doc, v, base, r, value, i + 1);
    }
  }

  lemma LocatedUnit(doc: Text, v: Text, base: nat, r: TextRange, j: nat)
    requires Located(doc, v, base) && r.end <= |doc| && j < r.end && doc[j] < '\U{80}'
    ensures Boundary(doc, j + 1)
  {
    AsciiIsWhole(doc, j);
  }

  lemma BreakRangeLands(doc: Text, v: Text, base: nat, r: TextRange, value: Text, i: nat)
    requires Located(doc, v, base) && Faithful(PlainText(r, value), v, base)
    requires i < |value| && value[i] == '\n' && MarkerBefore(value, i).Some?
    ensures var m := MarkerBefore(value, i).value;
      Source.TextOf(doc, Relative(r, m, i + 1)).Some? <==> LandsAt(value, r.end - r.start - |value|, m)
  {
    hide Faithful, Located, MarkerBefore, BreakAt, LandsAt, Tiles, StartsWith;
    var m := MarkerBefore(value, i).value;
    assert i > 0 && value[i - 1] in "+\r";
    BreakStartLands(doc, v, base, r, value, m);
    BreakEndLands(doc, v, base, r, value, i);
  }

  /** The unit of the source at offset `j` of a text node. */
  lemma SourceUnit(doc: Text, v: Text, base: nat, r: TextRange, value: Text, j: nat)
    requires Located(doc, v, base) && Faithful(PlainText(r, value), v, base) && j < r.end - r.start
    ensures |value| <= r.end - r.start <= |value| + 2 && r.end <= |doc|
    ensures var escape := r.end - r.start - |value|;
      doc[r.start + j] == if j < escape then '\\' else value[j - escape]
  {
    var source := Slice(v, base, r);
    assert source[j] == v[r.start - base + j] == doc[base..base + |v|][r.start - base + j];
  }

  lemma {:induction false} SplitFromLands(doc: Text, v: Text, base: nat, r: TextRange, value: Text, cursor: nat, i: nat)
    requires Located(doc, v, base) && Faithful(PlainText(r, value), v, base)
    requires cursor <= i <= |value| && (0 < cursor ==> value[cursor - 1] == '\n')
    ensures Rowed(SplitFrom(r, value, cursor, i), r.start + cursor, r.end)
    ensures Landed(doc, SplitFrom(r, value, cursor, i)) <==> BreaksLandFrom(value, r.end - r.start - |value|, i)
    decreases |value| - i
  {
    hide Faithful, Landed, Rowed, LandsAt, MarkerBefore, TextPiece, Tiles, Located, StartsWith, BreakAt;
    FaithfulText(r, value, v, base);
    if i == |value| {
      PieceRow(doc, r, value, cursor, |value|, r.end);
    } else if value[i] == '\n' && MarkerBefore(value, i).Some? {
      var m := MarkerBefore(value, i).value;
      SplitFromLands(doc, v, base, r, value, i + 1, i + 1);
      BreakRangeLands(doc, v, base, r, value, i);
      BreakJoins(doc, r, value, cursor, m, i, SplitFrom(r, value, i + 1, i + 1));
    } else {
      SplitFromLands(doc, v, base, r, value, cursor, i + 1);
    }
  }

  lemma BreakJoins(doc: Text, r: TextRange, value: Text, cursor: nat, m: nat, i: nat, rest: seq<Inline>)
    requires cursor <= m <= i < |value| <= r.end - r.start && Rowed(rest, r.start + i + 1, r.end)
    ensures var all := TextPiece(r, value, cursor, m) + [HardBreak(Relative(r, m, i + 1))] + rest;
      && Rowed(all, r.start + cursor, r.end)
      && (Landed(doc, all) <==> Source.TextOf(doc, Relative(r, m, i + 1)).Some? && Landed(doc, rest))
  {
    hide Rowed, Landed, TextPiece;
    var head, brk := TextPiece(r, value, cursor, m), [HardBreak(Relative(r, m, i + 1))];
    PieceRow(doc, r, value, cursor, m, r.start + m);
    BreakRow(doc, Relative(r, m, i + 1));
    RowedAppend(head, brk, r.start + cursor, r.start + m, r.start + i + 1);
    RowedAppend(head + brk, rest, r.start + cursor, r.start + i + 1, r.end);
    LandedAppend(doc, head, brk);
    LandedAppend(doc, head + brk, rest);
  }

  lemma FaithfulText(r: TextRange, value: Text, v: Text, base: nat)
    requires Faithful(PlainText(r, value), v, base)
    ensures |value| <= r.end - r.start
  {
  }

  lemma PieceRow(doc: Text, r: TextRange, value: Text, from: nat, end: nat, hi: nat)
    requires from <= end <= |value| <= r.end - r.start && r.start + end <= hi
    ensures Rowed(TextPiece(r, value, from, end), r.start + from, hi) && Landed(doc, TextPiece(r, value, from, end))
  {
    if from < end {
      var x := PlainText(Relative(r, from, end), value[from..end]);
      assert TextPiece(r, value, from, end) == [x] && [x][..0] == [];
      assert Landed(doc, []);
    }
  }

  lemma BreakRow(doc: Text, r: TextRange)
    ensures Rowed([HardBreak(r)], r.start, r.end)
    ensures Landed(doc, [HardBreak(r)]) <==> Source.TextOf(doc, r).Some?
  {
    assert [HardBreak(r)][..0] == [];
  }

  // ---------------------------------------------------------------- whole segments

  lemma {:induction false} TilesAreRowed(doc: Text, s: seq<Inline>, v: Text, base: nat, from: nat, end: nat)
    requires Located(doc, v, base) && Tiles(s, v, base, from, end) && from <= end <= |v|
    ensures Rowed(s, base + from, base + end) && Landed(doc, s)
    decreases s
  {
    hide Located;
    if s != [] {
      var x := s[|s| - 1];
      TilesAreRowed(doc, s[..|s| - 1], v, base, from, x.range.start - base);
      FaithfulIsShaped(doc, x, v, base);
    }
  }

  lemma {:induction false} FaithfulIsShaped(doc: Text, x: Inline, v: Text, base: nat)
    requires Located(doc, v, base) && Faithful(x, v, base)
    ensures Shaped(x) && LandedOne(doc, x)
    decreases x
  {
    hide Tiles, Landed, Rowed, Faithful, Located;
    if x.Styled? {
      StyledParts(doc, x, v, base);
      TilesAreRowed(doc, x.children, Slice(v, base, x.content), x.content.start, 0, x.content.end - x.content.start);
    } else if (x.Link? || x.Reference?) && x.captionRange.Some? {
      var l := x.captionRange.value;
      CaptionParts(doc, x, v, base);
      TilesAreRowed(doc, x.caption, Slice(v, base, l), l.start, 0, l.end - l.start);
    } else {
      UnnestedIsShaped(doc, x, v, base);
    }
  }

  lemma UnnestedIsShaped(doc: Text, x: Inline, v: Text, base: nat)
    requires Located(doc, v, base) && Faithful(x, v, base)
    requires !x.Styled? && (x.Link? || x.Reference? ==> x.captionRange.None?)
    ensures Shaped(x) && LandedOne(doc, x)
  {
    hide Tiles, Landed, Rowed;
    LocatedRange(doc, v, base, x.range);
    if !x.PlainText? && !x.HardBreak? {
      LocatedRange(doc, v, base, x.content);
    }
  }

  /** Replacing the hard breaks of a parsed segment keeps its inlines in order; the ranges that
      become syntax nodes land on boundaries exactly when no escaped text breaks after a wide
      character. */
  lemma {:induction false} SplitLands(doc: Text, s: seq<Inline>, v: Text, base: nat, from: nat, end: nat)
    requires Located(doc, v, base) && Tiles(s, v, base, from, end) && from <= end <= |v|
    ensures Rowed(SplitHardBreaks(s), base + from, base + end)
    ensures Landed(doc, SplitHardBreaks(s)) <==> AllBreaksLand(s)
    decreases s
  {
    hide Located, Faithful, SplitOne, BreaksLand, LandedOne, Shaped;
    if s != [] {
      var x := s[|s| - 1];
      SplitLands(doc, s[..|s| - 1], v, base, from, x.range.start - base);
      SplitOneLands(doc, x, v, base);
      RowedAppend(SplitHardBreaks(s[..|s| - 1]), SplitOne(x), base + from, x.range.start, base + end);
      LandedAppend(doc, SplitHardBreaks(s[..|s| - 1]), SplitOne(x));
    }
  }

  // ---------------------------------------------------------------- ranges of text

  /** Whether every text, at every level, has a range of whole characters. */
  predicate TextsLandOne(doc: Text, x: Inline)
    decreases x, 0
  {
    match x
    case PlainText(r, _) => Source.TextOf(doc, r).Some?
    case Styled(_, _, _, children) => TextsLand(doc, children)
    case Link(_, _, _, caption) => TextsLand(doc, caption)
    case Reference(_, _, _, caption) => TextsLand(doc, caption)
    case _ => true
  }

  predicate TextsLand(doc: Text, s: seq<Inline>)
    decreases s
  {
    s == [] || (TextsLand(doc, s[..|s| - 1]) && TextsLandOne(doc, s[|s| - 1]))
  }

  /** The value ends in a hard break, so that nothing is left after the last one. */
  predicate EndsInBreak(value: Text) {
    value == [] || (value[|value| - 1] == '\n' && MarkerBefore(value, |value| - 1).Some?)
  }

  /** Where the last piece ends, in a value from which `escape` backslashes were removed. */
  predicate EndLands(value: Text, escape: nat) {
    escape == 0 || |value| < escape || !Continuation(value[|value| - escape])
  }

  /** No escaped text, at any level, ends in a character that the shift of its range cuts. */
  predicate EndsLand(x: Inline)
    decreases x, 0
  {
    match x
    case PlainText(r, value) => |value| <= r.end - r.start
      && (EndsInBreak(value) || EndLands(value, r.end - r.start - |value|))
    case Styled(_, _, _, children) => AllEndsLand(children)
    case Link(_, _, _, caption) => AllEndsLand(caption)
    case Reference(_, _, _, caption) => AllEndsLand(caption)
    case _ => true
  }

  predicate AllEndsLand(s: seq<Inline>)
    decreases s
  {
    s == [] || (AllEndsLand(s[..|s| - 1]) && EndsLand(s[|s| - 1]))
  }

  lemma {:induction false} TextsLandAppend(doc: Text, a: seq<Inline>, b: seq<Inline>)
    ensures TextsLand(doc, a + b) <==> TextsLand(doc, a) && TextsLand(doc, b)
    decreases |b|
  {
    if b == [] {
      assert a + b == a;
    } else {
      assert (a + b)[..|a + b| - 1] == a + b[..|b| - 1];
      TextsLandAppend(doc, a, b[..|b| - 1]);
    }
  }

  lemma OneText(doc: Text, x: Inline)
    ensures TextsLand(doc, [x]) <==> TextsLandOne(doc, x)
  {
    assert [x][..0] == [];
    assert TextsLand(doc, []);
  }

  /** Where the last piece of a split value starts. */
  function LastCut(value: Text, cursor: nat, i: nat): nat
    requires i <= |value|
    decreases |value| - i
  {
    if i == |value| then cursor
    else if value[i] == '\n' && MarkerBefore(value, i).Some? then LastCut(value, i + 1, i + 1)
    else LastCut(value, cursor, i + 1)
  }

  lemma {:induction false} LastCutIs(value: Text, cursor: nat, i: nat)
    requires cursor <= i <= |value|
    ensures LastCut(value, cursor, i) <= |value|
    ensures i < |value| ==> (LastCut(value, cursor, i) == |value| <==> EndsInBreak(value))
    decreases |value| - i
  {
    hide MarkerBefore;
    if i < |value| {
      if value[i] == '\n' && MarkerBefore(value, i).Some? {
        LastCutIs(value, i + 1, i + 1);
      } else {
        LastCutIs(value, cursor, i + 1);
      }
    }
  }

  lemma PieceLands(doc: Text, r: TextRange, value: Text, from: nat, end: nat)
    requires from <= end <= |value| && r.start + end <= |doc| && (from < end ==> Boundary(doc, r.start + from))
    ensures TextsLand(doc, TextPiece(r, value, from, end)) <==> from == end || Boundary(doc, r.start + end)
  {
    if from < end {
      OneText(doc, PlainText(Relative(r, from, end), value[from..end]));
    } else {
      assert TextsLand(doc, []);
    }
  }

  lemma EndIsWhole(doc: Text, v: Text, base: nat, r: TextRange, value: Text)
    requires Located(doc, v, base) && Faithful(PlainText(r, value), v, base)
    ensures |value| <= r.end - r.start && r.start + |value| <= |doc| && Boundary(doc, r.start)
    ensures Boundary(doc, r.start + |value|) <==> EndLands(value, r.end - r.start - |value|)
  {
    hide Faithful, Located, Slice, Tiles, Valid;
    FaithfulText(r, value, v, base);
    FaithfulRange(PlainText(r, value), v, base);
    LocatedRange(doc, v, base, r);
    if |value| < r.end - r.start {
      SourceUnit(doc, v, base, r, value, |value|);
    }
  }

  lemma FaithfulRange(x: Inline, v: Text, base: nat)
    requires Faithful(x, v, base)
    ensures x.range.start < x.range.end && Whole(v, base, x.range)
  {
  }

  /** When the breaks land, all pieces but the last do; the last one does unless its end is shifted
      into a character. */
  lemma {:induction false} SplitFromTexts(doc: Text, v: Text, base: nat, r: TextRange, value: Text, cursor: nat, i: nat)
    requires Located(doc, v, base) && Faithful(PlainText(r, value), v, base)
    requires cursor <= i <= |value| && (0 < cursor ==> value[cursor - 1] == '\n')
    requires |value| <= r.end - r.start && BreaksLandFrom(value, r.end - r.start - |value|, i)
    requires Boundary(doc, r.start + cursor)
    ensures TextsLand(doc, SplitFrom(r, value, cursor, i))
       <==> LastCut(value, cursor, i) == |value| || EndLands(value, r.end - r.start - |value|)
    decreases |value| - i
  {
    hide Faithful, TextsLand, LandsAt, MarkerBefore, TextPiece, Tiles, Located, StartsWith, BreakAt, EndLands, Boundary;
    EndIsWhole(doc, v, base, r, value);
    if i == |value| {
      PieceLands(doc, r, value, cursor, |value|);
    } else if value[i] == '\n' && MarkerBefore(value, i).Some? {
      var m := MarkerBefore(value, i).value;
      assert i > 0 && value[i - 1] in "+\r";
      BreakStartLands(doc, v, base, r, value, m);
      BreakEndLands(doc, v, base, r, value, i);
      SplitFromTexts(doc, v, base, r, value, i + 1, i + 1);
      CutFits(value, cursor, i);
      PieceLands(doc, r, value, cursor, m);
      var head, brk, rest := TextPiece(r, value, cursor, m), [HardBreak(Relative(r, m, i + 1))],
        SplitFrom(r, value, i + 1, i + 1);
      OneText(doc, brk[0]);
      TextsLandAppend(doc, head, brk);
      TextsLandAppend(doc, head + brk, rest);
    } else {
      SplitFromTexts(doc, v, base, r, value, cursor, i + 1);
    }
  }

  lemma CutFits(value: Text, cursor: nat, i: nat)
    requires cursor <= i < |value| && value[i] == '\n' && MarkerBefore(value, i).Some?
      && (0 < cursor ==> value[cursor - 1] == '\n')
    ensures cursor <= MarkerBefore(value, i).value
  {
  }

  /** After splitting, all ranges of nodes and texts, at every level, are whole characters exactly
      when no escaped text has a hard break right after a character outside ASCII, or ends in one
      that the shift by the removed backslashes cuts. */
  lemma {:induction false} SplitTextsLand(doc: Text, s: seq<Inline>, v: Text, base: nat, from: nat, end: nat)
    requires Located(doc, v, base) && Tiles(s, v, base, from, end) && from <= end <= |v|
    ensures Landed(doc, SplitHardBreaks(s)) && TextsLand(doc, SplitHardBreaks(s)) <==>
      AllBreaksLand(s) && AllEndsLand(s)
    decreases s
  {
    hide Located, Faithful, SplitOne, BreaksLand, EndsLand, LandedOne, TextsLandOne, Shaped, Landed;
    SplitLands(doc, s, v, base, from, end);
    if s != [] {
      var x := s[|s| - 1];
      SplitLands(doc, s[..|s| - 1], v, base, from, x.range.start - base);
      SplitTextsLand(doc, s[..|s| - 1], v, base, from, x.range.start - base);
      SplitOneTexts(doc, x, v, base);
      TextsLandAppend(doc, SplitHardBreaks(s[..|s| - 1]), SplitOne(x));
    }
  }

  lemma {:induction false} SplitOneTexts(doc: Text, x: Inline, v: Text, base: nat)
    requires Located(doc, v, base) && Faithful(x, v, base)
    ensures BreaksLand(x) ==> (TextsLand(doc, SplitOne(x)) <==> EndsLand(x))
    decreases x, 0
  {
    hide Located, TextsLand, Landed, AllBreaksLand, AllEndsLand, Faithful, Tiles, BreaksLandFrom, SplitFrom,
      EndsInBreak, EndLands;
    if x.PlainText? {
      EndIsWhole(doc, v, base, x.range, x.value);
      LastCutIs(x.value, 0, 0);
      NothingLeft(x.value);
      if BreaksLand(x) {
        SplitFromTexts(doc, v, base, x.range, x.value, 0, 0);
      }
    } else if x.Styled? {
      StyledParts(doc, x, v, base);
      SplitLands(doc, x.children, Slice(v, base, x.content), x.content.start, 0, x.content.end - x.content.start);
      SplitTextsLand(doc, x.children, Slice(v, base, x.content), x.content.start, 0, x.content.end - x.content.start);
      OneText(doc, Styled(x.style, x.range, x.content, SplitHardBreaks(x.children)));
    } else if (x.Link? || x.Reference?) && x.captionRange.Some? {
      var l := x.captionRange.value;
      CaptionParts(doc, x, v, base);
      SplitLands(doc, x.caption, Slice(v, base, l), l.start, 0, l.end - l.start);
      SplitTextsLand(doc, x.caption, Slice(v, base, l), l.start, 0, l.end - l.start);
      OneText(doc, if x.Link? then Link(x.range, x.content, Some(l), SplitHardBreaks(x.caption))
                  else Reference(x.range, x.content, Some(l), SplitHardBreaks(x.caption)));
    } else {
      UnchangedTexts(doc, x, v, base);
    }
  }

  lemma NothingLeft(value: Text)
    ensures value == [] ==> EndsInBreak(value) && LastCut(value, 0, 0) == 0
  {
  }

  lemma UnchangedTexts(doc: Text, x: Inline, v: Text, base: nat)
    requires Faithful(x, v, base) && !x.PlainText? && !x.Styled? && (x.Link? || x.Reference? ==> x.captionRange.None?)
    ensures TextsLand(doc, SplitOne(x)) && EndsLand(x)
  {
    assert SplitHardBreaks([]) == [] && TextsLand(doc, []) && AllEndsLand([]);
    if x.Link? {
      OneText(doc, Link(x.range, x.content, None, []));
    } else if x.Reference? {
      OneText(doc, Reference(x.range, x.content, None, []));
    } else {
      OneText(doc, x);
    }
  }

  lemma OneRow(doc: Text, x: Inline)
    requires Shaped(x)
    ensures Rowed([x], x.range.start, x.range.end) && (Landed(doc, [x]) <==> LandedOne(doc, x))
  {
    assert [x][..0] == [];
    assert Landed(doc, []);
  }

  lemma StyledParts(doc: Text, x: Inline, v: Text, base: nat)
    requires Located(doc, v, base) && Faithful(x, v, base) && x.Styled?
    ensures Within(x.content, x.range) && base <= x.content.start && x.content.end <= base + |v|
    ensures Source.TextOf(doc, x.range).Some? && Source.TextOf(doc, x.content).Some?
    ensures Located(doc, Slice(v, base, x.content), x.content.start)
    ensures Tiles(x.children, Slice(v, base, x.content), x.content.start, 0, x.content.end - x.content.start)
  {
    LocatedRange(doc, v, base, x.range);
    LocatedRange(doc, v, base, x.content);
  }

  lemma CaptionParts(doc: Text, x: Inline, v: Text, base: nat)
    requires Located(doc, v, base) && Faithful(x, v, base) && (x.Link? || x.Reference?) && x.captionRange.Some?
    ensures var l := x.captionRange.value;
      && Within(x.content, x.range) && Within(l, x.range) && x.content.end <= l.start
      && base <= l.start && l.end <= base + |v|
      && Source.TextOf(doc, x.range).Some? && Source.TextOf(doc, x.content).Some? && Source.TextOf(doc, l).Some?
      && Located(doc, Slice(v, base, l), l.start)
      && Tiles(x.caption, Slice(v, base, l), l.start, 0, l.end - l.start)
  {
    LocatedRange(doc, v, base, x.range);
    LocatedRange(doc, v, base, x.content);
    LocatedRange(doc, v, base, x.captionRange.value);
  }

  lemma {:induction false} SplitOneLands(doc: Text, x: Inline, v: Text, base: nat)
    requires Located(doc, v, base) && Faithful(x, v, base)
    ensures Rowed(SplitOne(x), x.range.start, x.range.end)
    ensures Landed(doc, SplitOne(x)) <==> BreaksLand(x)
    decreases x, 0
  {
    hide Located, Rowed, Landed, AllBreaksLand, Faithful, Tiles, BreaksLandFrom, SplitFrom;
    if x.PlainText? {
      FaithfulText(x.range, x.value, v, base);
      SplitFromLands(doc, v, base, x.range, x.value, 0, 0);
    } else if x.Styled? {
      StyledParts(doc, x, v, base);
      SplitLands(doc, x.children, Slice(v, base, x.content), x.content.start, 0, x.content.end - x.content.start);
      OneRow(doc, Styled(x.style, x.range, x.content, SplitHardBreaks(x.children)));
    } else if (x.Link? || x.Reference?) && x.captionRange.Some? {
      var l := x.captionRange.value;
      CaptionParts(doc, x, v, base);
      SplitLands(doc, x.caption, Slice(v, base, l), l.start, 0, l.end - l.start);
      OneRow(doc, if x.Link? then Link(x.range, x.content, Some(l), SplitHardBreaks(x.caption))
                  else Reference(x.range, x.content, Some(l), SplitHardBreaks(x.caption)));
    } else {
      UnchangedLands(doc, x, v, base);
    }
  }

  lemma UnchangedLands(doc: Text, x: Inline, v: Text, base: nat)
    requires Located(doc, v, base) && Faithful(x, v, base)
    requires !x.PlainText? && !x.Styled? && (x.Link? || x.Reference? ==> x.captionRange.None?)
    ensures SplitOne(x) == [x] && Rowed([x], x.range.start, x.range.end) && Landed(doc, [x]) && BreaksLand(x)
  {
    FaithfulIsShaped(doc, x, v, base);
    OneRow(doc, x);
  }

  // ---------------------------------------------------------------- tiling after the split

  /** Splitting the hard breaks of a text node leaves pieces that tile its range exactly when
      nothing was escaped in it: otherwise the last piece stops short of the range's end. */
  lemma SplitTilesIff(x: Inline, v: Text, base: nat)
    requires x.PlainText? && Valid(v) && Faithful(x, v, base)
    ensures Tiles(SplitOne(x), v, base, x.range.start - base, x.range.end - base)
       <==> |x.value| == x.range.end - x.range.start
  {
    var r, value := x.range, x.value;
    SplitEnds(r, value, 0, 0);
    if |value| == r.end - r.start {
      assert Slice(v, base, r)[0..] == Slice(v, base, r);
      SplitFromTiles(r, value, 0, 0, v, base);
    }
  }

  lemma {:induction false} SplitEnds(r: TextRange, value: Text, cursor: nat, i: nat)
    requires cursor <= i <= |value| && (0 < cursor ==> value[cursor - 1] == '\n')
    ensures var s := SplitFrom(r, value, cursor, i);
      if s == [] then cursor == |value| else s[|s| - 1].range.end == r.start + |value|
    decreases |value| - i
  {
    if i < |value| {
      if value[i] == '\n' && MarkerBefore(value, i).Some? {
        SplitEnds(r, value, i + 1, i + 1);
      } else {
        SplitEnds(r, value, cursor, i + 1);
      }
    }
  }

  lemma {:induction false} SplitFromTiles(r: TextRange, value: Text, cursor: nat, i: nat, v: Text, base: nat)
    requires Valid(v) && Whole(v, base, r) && value == Slice(v, base, r)
    requires cursor <= i <= |value| && (0 < cursor ==> value[cursor - 1] == '\n')
    ensures Tiles(SplitFrom(r, value, cursor, i), v, base, r.start - base + cursor, r.end - base)
    decreases |value| - i
  {
    hide Tiles, MarkerBefore, StartsWith, BreakAt, Faithful, TextPiece, Slice;
    var at := r.start - base;
    SliceLength(r, value, v, base);
    if cursor > 0 {
      AsciiInSlice(r, value, cursor - 1, v, base);
    }
    if i == |value| {
      PieceTiles(r, value, cursor, |value|, v, base);
    } else if value[i] == '\n' && MarkerBefore(value, i).Some? {
      var m := MarkerBefore(value, i).value;
      var brk := HardBreak(Relative(r, m, i + 1));
      AsciiInSlice(r, value, m, v, base);
      AsciiInSlice(r, value, i, v, base);
      PieceTiles(r, value, cursor, m, v, base);
      WholeIsFaithful(brk.range, v, base);
      TilesAppend(TextPiece(r, value, cursor, m), brk, v, base, at + cursor, at + m, at + i + 1);
      SplitFromTiles(r, value, i + 1, i + 1, v, base);
      TilesJoin(TextPiece(r, value, cursor, m) + [brk], SplitFrom(r, value, i + 1, i + 1), v, base, at + cursor,
        at + i + 1, r.end - base);
    } else {
      SplitFromTiles(r, value, cursor, i + 1, v, base);
    }
  }

  lemma SliceLength(r: TextRange, value: Text, v: Text, base: nat)
    requires Whole(v, base, r) && value == Slice(v, base, r)
    ensures |value| == r.end - r.start
  {
  }

  lemma AsciiInSlice(r: TextRange, value: Text, i: nat, v: Text, base: nat)
    requires Valid(v) && Whole(v, base, r) && value == Slice(v, base, r) && i < |value| && value[i] < '\U{80}'
    ensures |value| == r.end - r.start
    ensures Boundary(v, r.start - base + i) && Boundary(v, r.start - base + i + 1)
  {
    AsciiIsWhole(v, r.start - base + i);
  }

  lemma WholeIsFaithful(r: TextRange, v: Text, base: nat)
    requires Whole(v, base, r) && r.start < r.end
    ensures Faithful(HardBreak(r), v, base) && Faithful(PlainText(r, Slice(v, base, r)), v, base)
  {
  }

  lemma PieceTiles(r: TextRange, value: Text, from: nat, end: nat, v: Text, base: nat)
    requires Whole(v, base, r) && value == Slice(v, base, r) && from <= end <= |value|
    requires Boundary(v, r.start - base + from) && Boundary(v, r.start - base + end)
    ensures Tiles(TextPiece(r, value, from, end), v, base, r.start - base + from, r.start - base + end)
  {
    hide Tiles, Faithful;
    var at := r.start - base;
    NothingTiles(v, base, at + from);
    if from < end {
      var x := PlainText(Relative(r, from, end), value[from..end]);
      SliceOfSlice(v, at, r.end - base, from, end);
      assert Slice(v, base, x.range) == x.value;
      WholeIsFaithful(x.range, v, base);
      TilesAppend([], x, v, base, at + from, at + from, at + end);
      assert [] + [x] == [x];
    }
  }

  lemma NothingTiles(v: Text, base: nat, at: nat)
    ensures Tiles([], v, base, at, at)
  {
  }

  lemma {:induction false} TilesJoin(a: seq<Inline>, b: seq<Inline>, v: Text, base: nat, from: nat, mid: nat, end: nat)
    requires Tiles(a, v, base, from, mid) && Tiles(b, v, base, mid, end) && from <= mid
    ensures Tiles(a + b, v, base, from, end)
    decreases |b|
  {
    if b == [] {
      assert a + b == a;
    } else {
      var x := b[|b| - 1];
      TilesJoin(a, b[..|b| - 1], v, base, from, mid, x.range.start - base);
      assert (a + b)[..|a + b| - 1] == a + b[..|b| - 1];
    }
  }
}
