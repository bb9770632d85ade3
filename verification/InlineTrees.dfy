/** What the syntax tree shows of inline content: a node for everything but plain text, at every level. */
module InlineTrees {
  import opened Text
  import opened InlineModel
  import N = InlineNodes
  import S = Syntax

  /** The delimiters of a span, around what its content shows. */
  predicate Enclosed(n: S.Node, r: TextRange, c: TextRange, inner: seq<S.Node>)
    requires r.start <= c.start && c.end <= r.end
  {
    && n.kind == S.InlineSpan && n.children != []
    && n.children[0] == S.Leaf(S.InlineDelimiter, Range(r.start, c.start))
    && if c.end < r.end then
         n.children[1..] == inner + [S.Leaf(S.InlineDelimiter, Range(c.end, r.end))]
       else n.children[1..] == inner
  }

  /** The target of a macro, and its label with what the label shows. */
  predicate Targeted(n: S.Node, target: TextRange, label_: Option<TextRange>, inner: seq<S.Node>) {
    && n.kind == S.Macro
    && match label_
       case None => n.children == [S.Leaf(S.Target, target)]
       case Some(l) => n.children == [S.Leaf(S.Target, target), S.Node(S.LabelNode, l, inner)]
  }

  /** The node shows the inline: same range, and what is inside it in order. */
  ghost predicate Shows(x: Inline, n: S.Node)
    requires N.Shaped(x)
    decreases x, 0
  {
    && n.range == x.range
    && match x
       case PlainText(_, _) => false
       case HardBreak(r) => n == S.Leaf(S.HardBreak, r)
       case Styled(_, r, c, children) => exists inner :: Enclosed(n, r, c, inner) && ShowAll(children, inner)
       case Literal(r, c, _) => Enclosed(n, r, c, [])
       case Passthrough(_, r, c, _) => Enclosed(n, r, c, [])
       case Link(_, c, l, caption) => exists inner :: Targeted(n, c, l, inner) && ShowAll(caption, inner)
       case Reference(_, c, l, caption) => exists inner :: Targeted(n, c, l, inner) && ShowAll(caption, inner)
       case AttributeReference(_, c, _) => Targeted(n, c, None, [])
       case Formula(_, c, _, _, _) => Targeted(n, c, None, [])
       case Macro(_, _, _, c, _, _) => Targeted(n, c, None, [])
  }

  /** The nodes show the inlines that are no plain text, one for one and in order. */
  ghost predicate ShowAll(s: seq<Inline>, nodes: seq<S.Node>)
    decreases s, 1
  {
    if s == [] then nodes == []
    else
      var x, init := s[|s| - 1], s[..|s| - 1];
      if x.PlainText? then ShowAll(init, nodes)
      else N.Shaped(x) && nodes != [] && Shows(x, nodes[|nodes| - 1]) && ShowAll(init, nodes[..|nodes| - 1])
  }

  function Shown(s: seq<Inline>): seq<TextRange> {
    if s == [] then [] else Shown(s[..|s| - 1]) + if s[|s| - 1].PlainText? then [] else [s[|s| - 1].range]
  }

  function RangesOf(nodes: seq<S.Node>): seq<TextRange> {
    seq(|nodes|, i requires 0 <= i < |nodes| => nodes[i].range)
  }

  /** So their ranges are those of the inlines. */
  lemma {:induction false} ShownRanges(s: seq<Inline>, nodes: seq<S.Node>)
    requires ShowAll(s, nodes)
    ensures RangesOf(nodes) == Shown(s)
    decreases |s|
  {
    if s != [] {
      var x, init := s[|s| - 1], s[..|s| - 1];
      if x.PlainText? {
        ShownRanges(init, nodes);
      } else {
        ShownRanges(init, nodes[..|nodes| - 1]);
        assert RangesOf(nodes) == RangesOf(nodes[..|nodes| - 1]) + [nodes[|nodes| - 1].range];
      }
    }
  }

  lemma {:induction false} NodeShows(x: Inline)
    requires N.Shaped(x)
    ensures if x.PlainText? then N.NodeOf(x) == [] else |N.NodeOf(x)| == 1 && Shows(x, N.NodeOf(x)[0])
    decreases x, 0
  {
    hide Enclosed, Targeted, ShowAll;
    match x
    case Styled(_, r, c, children) => StyledShows(x, r, c, children);
    case Link(r, c, l, caption) => LabelShows(x, c, l, caption);
    case Reference(r, c, l, caption) => LabelShows(x, c, l, caption);
    case PlainText(_, _) =>
    case HardBreak(_) =>
    case _ => LeafShows(x);
  }

  lemma LeafShows(x: Inline)
    requires N.Shaped(x)
    requires x.Literal? || x.Passthrough? || x.AttributeReference? || x.Formula? || x.Macro?
    ensures |N.NodeOf(x)| == 1 && N.NodeOf(x)[0].range == x.range
    ensures if x.Literal? || x.Passthrough? then Enclosed(N.NodeOf(x)[0], x.range, x.content, [])
      else Targeted(N.NodeOf(x)[0], x.content, None, [])
  {
    hide ShowAll;
  }

  lemma {:induction false} StyledShows(x: Inline, r: TextRange, c: TextRange, children: seq<Inline>)
    requires N.Shaped(x) && x.Styled? && x == Styled(x.style, r, c, children)
    ensures |N.NodeOf(x)| == 1 && N.NodeOf(x)[0].range == x.range
    ensures exists inner :: Enclosed(N.NodeOf(x)[0], r, c, inner) && ShowAll(children, inner)
    decreases children, 2
  {
    hide ShowAll;
    var inner := N.Nodes(children, c.start, c.end);
    NodesShow(children, c.start, c.end);
    assert Enclosed(N.NodeOf(x)[0], r, c, inner);
  }

  lemma {:induction false} LabelShows(x: Inline, c: TextRange, l: Option<TextRange>, caption: seq<Inline>)
    requires N.Shaped(x) && (x == Link(x.range, c, l, caption) || x == Reference(x.range, c, l, caption))
    ensures |N.NodeOf(x)| == 1 && N.NodeOf(x)[0].range == x.range
    ensures exists inner :: Targeted(N.NodeOf(x)[0], c, l, inner) && ShowAll(caption, inner)
    decreases caption, 2
  {
    var inner := match l case None => [] case Some(b) => N.Nodes(caption, b.start, b.end);
    if l.Some? {
      NodesShow(caption, l.value.start, l.value.end);
    } else {
      assert ShowAll(caption, inner);
    }
    assert Targeted(N.NodeOf(x)[0], c, l, inner);
  }

  /** The syntax nodes of inlines show them. */
  lemma {:induction false} NodesShow(s: seq<Inline>, lo: nat, hi: nat)
    requires N.Rowed(s, lo, hi)
    ensures ShowAll(s, N.Nodes(s, lo, hi))
    decreases s, 1
  {
    hide Shows, N.NodeOf;
    if s != [] {
      var x, init := s[|s| - 1], s[..|s| - 1];
      NodesShow(init, lo, x.range.start);
      NodeShows(x);
      var nodes, last := N.Nodes(s, lo, hi), N.NodeOf(x);
      if x.PlainText? {
        assert nodes == N.Nodes(init, lo, x.range.start) + [] == N.Nodes(init, lo, x.range.start);
      } else {
        assert last == [last[0]];
        assert nodes == N.Nodes(init, lo, x.range.start) + last;
        assert nodes[..|nodes| - 1] == N.Nodes(init, lo, x.range.start);
        ShapedLast(s, lo, hi);
      }
    }
  }

  lemma ShapedLast(s: seq<Inline>, lo: nat, hi: nat)
    requires N.Rowed(s, lo, hi) && s != []
    ensures N.Shaped(s[|s| - 1])
  {
  }
}
