/** The lossless syntax tree: annotations nested over the tokens of a document. */
module Syntax {
  import opened Text
  import opened Source

  datatype Kind =
    | DocumentRoot | DocumentTitle | AuthorLine | RevisionLine | Heading | MalformedHeading | Paragraph
    | ThematicBreak | PageBreak | LiteralBlock | DelimitedBlock | CommentLine | BlankLine | Unsupported
    | DocumentAttribute | BlockAnchor | List | MathBlock | TokenLeaf(token: TokenKind) | HeadingMarker
    | BlockAttribute | BlockTitle | BlockDelimiter | ListItem | ListMarker | InlineSpan | HardBreak
    | InlineDelimiter | Macro | Target | LabelNode | ErrorNode | Unknown

  predicate IsBlock(k: Kind) {
    || k.DocumentTitle? || k.AuthorLine? || k.RevisionLine? || k.Heading? || k.MalformedHeading? || k.Paragraph?
    || k.ThematicBreak? || k.PageBreak? || k.LiteralBlock? || k.DelimitedBlock? || k.CommentLine? || k.BlankLine?
    || k.Unsupported? || k.DocumentAttribute? || k.BlockAnchor? || k.BlockAttribute? || k.BlockTitle? || k.List?
    || k.MathBlock?
  }

  datatype Node = Node(kind: Kind, range: TextRange, children: seq<Node>)

  function Leaf(kind: Kind, range: TextRange): Node { Node(kind, range, []) }

  function Size(n: Node): (r: nat)
    ensures r > 0
  {
    1 + SizeAll(n.children)
  }

  function SizeAll(s: seq<Node>): (r: nat) {
    if s == [] then 0 else Size(s[0]) + SizeAll(s[1..])
  }

  // ---------------------------------------------------------------- well-nested annotations

  /** The two ranges share no byte: one ends before the other starts. */
  predicate Disjoint(a: TextRange, b: TextRange) {
    a.end <= b.start || b.end <= a.start
  }

  predicate Apart(x: Node, s: seq<Node>) {
    forall y :: y in s ==> Disjoint(x.range, y.range)
  }

  predicate AllApart(s: seq<Node>) {
    s == [] || (Apart(s[0], s[1..]) && AllApart(s[1..]))
  }

  predicate Inside(s: seq<Node>, outer: TextRange) {
    forall y :: y in s ==> outer.start <= y.range.start && y.range.end <= outer.end
  }

  /** Ranges of whole characters, children inside their parent and apart from each other,
      in any order; no tokens yet. */
  predicate WellNested(v: Text, n: Node) {
    && TextOf(v, n.range).Some?
    && !n.kind.TokenLeaf?
    && Inside(n.children, n.range)
    && AllApart(n.children)
    && AllWellNested(v, n.children)
  }

  predicate AllWellNested(v: Text, s: seq<Node>) {
    s == [] || (WellNested(v, s[0]) && AllWellNested(v, s[1..]))
  }

  // ---------------------------------------------------------------- stable sort by range

  predicate Before(a: TextRange, b: TextRange) {
    a.start < b.start || (a.start == b.start && a.end <= b.end)
  }

  function Insert(x: Node, s: seq<Node>): (r: seq<Node>)
    ensures |r| == |s| + 1 && SizeAll(r) == Size(x) + SizeAll(s)
    ensures forall y :: y in r <==> y == x || y in s
  {
    if s == [] || Before(x.range, s[0].range) then
      assert ([x] + s)[1..] == s;
      [x] + s
    else
      var rest := Insert(x, s[1..]);
      assert ([s[0]] + rest)[1..] == rest;
      assert forall y :: y in s <==> y == s[0] || y in s[1..];
      [s[0]] + rest
  }

  /** Stable order by start, then by end. */
  function Sorted(s: seq<Node>): (r: seq<Node>)
    ensures |r| == |s| && SizeAll(r) == SizeAll(s)
    ensures forall y :: y in r <==> y in s
  {
    if s == [] then []
    else
      assert forall y :: y in s <==> y == s[0] || y in s[1..];
      Insert(s[0], Sorted(s[1..]))
  }

  /** Each node starts no earlier than the one before it ends. */
  predicate Chained(s: seq<Node>, from: nat) {
    s == [] || (from <= s[0].range.start && Chained(s[1..], s[0].range.end))
  }

  lemma {:induction false} InsertChains(x: Node, s: seq<Node>, from: nat)
    requires Chained(s, from) && from <= x.range.start && Apart(x, s)
    ensures Chained(Insert(x, s), from)
    decreases |s|
  {
    if s == [] || Before(x.range, s[0].range) {
      assert ([x] + s)[1..] == s;
      if s != [] {
        assert s[0] in s;
      } else {
        assert Chained([x], from);
      }
    } else {
      assert s[0] in s;
      InsertChains(x, s[1..], s[0].range.end);
      assert Insert(x, s)[1..] == Insert(x, s[1..]);
    }
  }

  lemma {:induction false} InsertUnchains(x: Node, s: seq<Node>, from: nat)
    requires Chained(Insert(x, s), from)
    ensures from <= x.range.start && Apart(x, s) && Chained(s, from)
    decreases |s|
  {
    var r := Insert(x, s);
    if s == [] || Before(x.range, s[0].range) {
      assert r[1..] == s;
      ChainedIsLater(s, x.range.end);
      ChainedEarlier(s, x.range.end, from);
    } else {
      assert r[1..] == Insert(x, s[1..]);
      InsertUnchains(x, s[1..], s[0].range.end);
      assert forall y :: y in s <==> y == s[0] || y in s[1..];
    }
  }

  lemma {:induction false} ChainedIsLater(s: seq<Node>, from: nat)
    requires Chained(s, from)
    ensures forall y :: y in s ==> from <= y.range.start
    decreases |s|
  {
    if s != [] {
      ChainedIsLater(s[1..], s[0].range.end);
      assert forall y :: y in s <==> y == s[0] || y in s[1..];
    }
  }

  lemma ChainedEarlier(s: seq<Node>, from: nat, lower: nat)
    requires Chained(s, from) && lower <= from
    ensures Chained(s, lower)
  {
  }

  /** Sorting yields a chain exactly when the nodes are pairwise apart. */
  lemma {:induction false} SortedChains(s: seq<Node>, from: nat)
    requires forall y :: y in s ==> from <= y.range.start
    ensures Chained(Sorted(s), from) <==> AllApart(s)
    decreases |s|
  {
    if s != [] {
      assert forall y :: y in s <==> y == s[0] || y in s[1..];
      SortedChains(s[1..], from);
      if AllApart(s) {
        InsertChains(s[0], Sorted(s[1..]), from);
      }
      if Chained(Sorted(s), from) {
        InsertUnchains(s[0], Sorted(s[1..]), from);
      }
    }
  }

  lemma {:induction false} SortedWellNested(v: Text, s: seq<Node>)
    ensures AllWellNested(v, Sorted(s)) <==> AllWellNested(v, s)
  {
    AllWellNestedMembers(v, s);
    AllWellNestedMembers(v, Sorted(s));
  }

  lemma {:induction false} AllWellNestedMembers(v: Text, s: seq<Node>)
    ensures AllWellNested(v, s) <==> forall y :: y in s ==> WellNested(v, y)
    decreases |s|
  {
    if s != [] {
      AllWellNestedMembers(v, s[1..]);
      assert s[0] in s;
      assert forall y :: y in s <==> y == s[0] || y in s[1..];
    }
  }

  // ---------------------------------------------------------------- filling the gaps

  /** The parts of the tokens that lie in `r`. */
  function Clipped(tokens: seq<Token>, r: TextRange): seq<Node> {
    if tokens == [] then []
    else
      var start, end := Max(tokens[0].range.start, r.start), Min(tokens[0].range.end, r.end);
      (if start < end then [Leaf(TokenLeaf(tokens[0].kind), Range(start, end))] else []) + Clipped(tokens[1..], r)
  }

  /** The node with every gap between its annotations filled by token leaves, or nothing
      when a range is no text or annotations overlap or stick out. */
  function Materialized(v: Text, tokens: seq<Token>, n: Node): (r: Option<Node>)
    decreases Size(n), 0
  {
    if TextOf(v, n.range).None? then None
    else
      match Filled(v, tokens, n.range, Sorted(n.children), n.range.start)
      case None => None
      case Some(children) => Some(n.(children := children))
  }

  function Filled(v: Text, tokens: seq<Token>, outer: TextRange, annotations: seq<Node>,
      cursor: nat): (r: Option<seq<Node>>)
    requires outer.start <= cursor <= outer.end
    decreases SizeAll(annotations), 1
  {
    if annotations == [] then Some(Clipped(tokens, Range(cursor, outer.end)))
    else
      var a := annotations[0];
      if a.range.start < outer.start || outer.end < a.range.end || a.range.start < cursor then None
      else
        var m, rest := Materialized(v, tokens, a), Filled(v, tokens, outer, annotations[1..], a.range.end);
        if m.None? || rest.None? then None
        else Some(Clipped(tokens, Range(cursor, a.range.start)) + [m.value] + rest.value)
  }

  ghost function Prepend(a: seq<Node>, b: Option<seq<Node>>): Option<seq<Node>> {
    match b case None => None case Some(rest) => Some(a + rest)
  }

  lemma FilledStep(v: Text, tokens: seq<Token>, outer: TextRange, annotations: seq<Node>, cursor: nat, done: seq<Node>)
    requires outer.start <= cursor <= outer.end && annotations != []
    requires outer.start <= annotations[0].range.start && annotations[0].range.end <= outer.end
      && cursor <= annotations[0].range.start
    ensures var a := annotations[0]; var m := Materialized(v, tokens, a);
      Prepend(done, Filled(v, tokens, outer, annotations, cursor)) ==
        if m.None? then None
        else Prepend(done + Clipped(tokens, Range(cursor, a.range.start)) + [m.value],
          Filled(v, tokens, outer, annotations[1..], a.range.end))
  {
    hide Materialized, Clipped;
    var a := annotations[0];
    var m, rest := Materialized(v, tokens, a), Filled(v, tokens, outer, annotations[1..], a.range.end);
    var gap := Clipped(tokens, Range(cursor, a.range.start));
    if m.Some? && rest.Some? {
      assert done + (gap + [m.value] + rest.value) == done + gap + [m.value] + rest.value;
    }
  }

  /** Takes the annotations of a node, sorts them and puts them back between token leaves. */
  method Materialize(d: Document, n: Node) returns (r: Option<Node>)
    requires DocumentOk(d)
    ensures r == Materialized(d.source, d.tokens, n)
    decreases Size(n)
  {
    hide DocumentOk, Clipped, Sorted;
    if TextOf(d.source, n.range).None? {
      return None;
    }
    var annotations := Sorted(n.children);
    var cursor := n.range.start;
    var children: seq<Node> := [];
    var i: nat := 0;
    ghost var all := Filled(d.source, d.tokens, n.range, annotations, n.range.start);
    assert annotations[0..] == annotations;
    assert all.Some? ==> [] + all.value == all.value;
    while i < |annotations|
      invariant 0 <= i <= |annotations| && n.range.start <= cursor <= n.range.end
      invariant SizeAll(annotations[i..]) <= SizeAll(n.children)
      invariant all == Prepend(children, Filled(d.source, d.tokens, n.range, annotations[i..], cursor))
    {
      var a := annotations[i];
      assert annotations[i..][0] == a && annotations[i..][1..] == annotations[i + 1..];
      if a.range.start < n.range.start || n.range.end < a.range.end || a.range.start < cursor {
        return None;
      }
      FilledStep(d.source, d.tokens, n.range, annotations[i..], cursor, children);
      var gap := AppendTokens(d, Range(cursor, a.range.start));
      var m := Materialize(d, a);
      if m.None? {
        return None;
      }
      children := children + gap + [m.value];
      cursor := a.range.end;
      i := i + 1;
    }
    assert annotations[i..] == [];
    var gap := AppendTokens(d, Range(cursor, n.range.end));
    r := Some(n.(children := children + gap));
  }

  // ---------------------------------------------------------------- token lookup

  ghost predicate Ordered(s: seq<Token>) {
    forall i, j :: 0 <= i < j < |s| ==> s[i].range.end <= s[j].range.start
  }

  lemma {:induction false} TilesAreOrdered(v: Text, s: seq<Token>, from: nat, end: nat)
    requires TokensTile(v, s, from, end)
    ensures Ordered(s)
    decreases |s|
  {
    if s != [] {
      TilesAreOrdered(v, s[1..], s[0].range.end, end);
      TilesAreLater(v, s[1..], s[0].range.end, end);
      assert forall i :: 1 <= i < |s| ==> s[i] == s[1..][i - 1] && s[i] in s[1..];
    }
  }

  lemma {:induction false} TilesAreLater(v: Text, s: seq<Token>, from: nat, end: nat)
    requires TokensTile(v, s, from, end)
    ensures forall k :: k in s ==> from <= k.range.start
    decreases |s|
  {
    if s != [] {
      TilesAreLater(v, s[1..], s[0].range.end, end);
      assert forall k :: k in s <==> k == s[0] || k in s[1..];
    }
  }

  lemma {:induction false} ClippedNothing(s: seq<Token>, r: TextRange)
    requires forall i :: 0 <= i < |s| ==> s[i].range.end <= r.start || r.end <= s[i].range.start || r.start == r.end
    ensures Clipped(s, r) == []
    decreases |s|
  {
    if s != [] {
      ClippedNothing(s[1..], r);
    }
  }

  /** The number of leading tokens that end at or before `start`, by binary search. */
  method FirstAfter(tokens: seq<Token>, start: nat) returns (first: nat)
    requires Ordered(tokens)
    ensures first <= |tokens|
    ensures forall i :: 0 <= i < first ==> tokens[i].range.end <= start
    ensures forall i :: first <= i < |tokens| ==> start < tokens[i].range.end
  {
    var low, high := 0, |tokens|;
    while low < high
      invariant 0 <= low <= high <= |tokens|
      invariant forall i :: 0 <= i < low ==> tokens[i].range.end <= start
      invariant forall i :: high <= i < |tokens| ==> start < tokens[i].range.end
    {
      var mid := (low + high) / 2;
      if tokens[mid].range.end <= start {
        low := mid + 1;
      } else {
        high := mid;
      }
    }
    first := low;
  }

  lemma RestIsPast(tokens: seq<Token>, i: nat, r: TextRange)
    requires Ordered(tokens) && i <= |tokens| && (i < |tokens| ==> r.end <= tokens[i].range.start)
    ensures Clipped(tokens[i..], r) == []
  {
    ClippedNothing(tokens[i..], r);
  }

  lemma {:induction false} FirstsArePast(tokens: seq<Token>, first: nat, r: TextRange)
    requires first <= |tokens| && forall i :: 0 <= i < first ==> tokens[i].range.end <= r.start
    ensures Clipped(tokens, r) == Clipped(tokens[first..], r)
    decreases first
  {
    if first == 0 {
      assert tokens[0..] == tokens;
    } else {
      FirstsArePast(tokens[1..], first - 1, r);
      assert tokens[1..][first - 1..] == tokens[first..];
    }
  }

  lemma ClippedStep(tokens: seq<Token>, i: nat, r: TextRange)
    requires i < |tokens|
    ensures var start, end := Max(tokens[i].range.start, r.start), Min(tokens[i].range.end, r.end);
      Clipped(tokens[i..], r)
      == (if start < end then [Leaf(TokenLeaf(tokens[i].kind), Range(start, end))] else [])
        + Clipped(tokens[i + 1..], r)
  {
    assert tokens[i..][1..] == tokens[i + 1..];
  }

  /** The clipped tokens, found by searching for the first token that can meet the range
      and stopping at the first past it. */
  method AppendTokens(d: Document, r: TextRange) returns (leaves: seq<Node>)
    requires DocumentOk(d)
    ensures leaves == Clipped(d.tokens, r)
  {
    hide DocumentOk, TokensTile, Joined, Clipped;
    DocumentIsLossless(d);
    TilesAreOrdered(d.source, d.tokens, 0, |d.source|);
    var tokens := d.tokens;
    leaves := [];
    if r.start == r.end {
      ClippedNothing(tokens, r);
      return;
    }
    var first := FirstAfter(tokens, r.start);
    FirstsArePast(tokens, first, r);
    leaves := TakeWhileMeeting(tokens, first, r);
  }

  method TakeWhileMeeting(tokens: seq<Token>, first: nat, r: TextRange) returns (leaves: seq<Node>)
    requires Ordered(tokens) && first <= |tokens|
    ensures leaves == Clipped(tokens[first..], r)
  {
    hide Ordered, Clipped;
    leaves := [];
    var i := first;
    while i < |tokens| && tokens[i].range.start < r.end
      invariant i <= |tokens|
      invariant Clipped(tokens[first..], r) == leaves + Clipped(tokens[i..], r)
    {
      ClippedStep(tokens, i, r);
      var start, end := Max(tokens[i].range.start, r.start), Min(tokens[i].range.end, r.end);
      if start < end {
        leaves := leaves + [Leaf(TokenLeaf(tokens[i].kind), Range(start, end))];
      }
      i := i + 1;
    }
    RestIsPast(tokens, i, r);
  }

  // ---------------------------------------------------------------- the token leaves

  /** The token leaves of a node, in order. */
  function Leaves(n: Node): seq<Node>
    decreases Size(n), 0
  {
    (if n.kind.TokenLeaf? then [n] else []) + AllLeaves(n.children)
  }

  function AllLeaves(s: seq<Node>): seq<Node>
    decreases SizeAll(s), 1
  {
    if s == [] then [] else Leaves(s[0]) + AllLeaves(s[1..])
  }

  /** Non-empty pieces of text that follow each other from `from` to `end`. */
  predicate Partitions(v: Text, s: seq<Node>, from: nat, end: nat) {
    if s == [] then from == end
    else
      && s[0].range.start == from && from < s[0].range.end && TextOf(v, s[0].range).Some?
      && Partitions(v, s[1..], s[0].range.end, end)
  }

  lemma {:induction false} PartitionsAppend(v: Text, a: seq<Node>, b: seq<Node>, from: nat, mid: nat, end: nat)
    requires Partitions(v, a, from, mid) && Partitions(v, b, mid, end)
    ensures Partitions(v, a + b, from, end)
    decreases |a|
  {
    if a == [] {
      assert a + b == b;
    } else {
      PartitionsAppend(v, a[1..], b, a[0].range.end, mid, end);
      assert (a + b)[1..] == a[1..] + b;
    }
  }

  /** Tokens that tile a text, clipped to a range of it, partition the range. */
  lemma {:induction false} ClippedPartitions(v: Text, s: seq<Token>, from: nat, end: nat, r: TextRange)
    requires TokensTile(v, s, from, end) && r.end <= end <= |v| && from <= r.start
    requires Boundary(v, r.start) && Boundary(v, r.end)
    ensures Partitions(v, Clipped(s, r), r.start, r.end)
    ensures forall x :: x in Clipped(s, r) ==> x.kind.TokenLeaf? && x.children == []
    decreases |s|
  {
    if s != [] {
      var k := s[0].range;
      if k.end <= r.start {
        ClippedPartitions(v, s[1..], k.end, end, r);
        assert [] + Clipped(s[1..], r) == Clipped(s[1..], r);
      } else if r.start == r.end {
        ClippedNothing(s, r);
      } else if r.end <= k.end {
        ClippedInside(v, s, from, end, r);
      } else {
        ClippedFrom(v, s[1..], k.end, end, r);
        TokensEnd(v, s[1..], k.end, end);
        ClippedPartitions(v, s[1..], k.end, end, Range(k.end, r.end));
        assert Clipped(s, r)[1..] == Clipped(s[1..], r);
      }
    }
  }

  lemma ClippedInside(v: Text, s: seq<Token>, from: nat, end: nat, r: TextRange)
    requires TokensTile(v, s, from, end) && s != [] && from <= r.start < r.end <= s[0].range.end <= |v|
    ensures Clipped(s, r) == [Leaf(TokenLeaf(s[0].kind), r)]
  {
    TilesAreLater(v, s[1..], s[0].range.end, end);
    ClippedNothing(s[1..], r);
    assert Clipped(s, r) == [Leaf(TokenLeaf(s[0].kind), r)] + Clipped(s[1..], r);
  }

  /** Tokens that start at `from` or later are not affected by where a range starts before it. */
  lemma {:induction false} ClippedFrom(v: Text, s: seq<Token>, from: nat, end: nat, r: TextRange)
    requires TokensTile(v, s, from, end) && r.start <= from <= r.end
    ensures Clipped(s, r) == Clipped(s, Range(from, r.end))
    decreases |s|
  {
    TilesAreLater(v, s, from, end);
    ClippedSame(s, r, Range(from, r.end));
  }

  lemma {:induction false} ClippedSame(s: seq<Token>, r: TextRange, q: TextRange)
    requires r.end == q.end && forall k :: k in s ==> r.start <= k.range.start && q.start <= k.range.start
    ensures Clipped(s, r) == Clipped(s, q)
    decreases |s|
  {
    if s != [] {
      assert s[0] in s;
      ClippedSame(s[1..], r, q);
    }
  }

  // ---------------------------------------------------------------- materialization

  /** Materialization succeeds exactly on well-nested nodes, and then keeps the node's kind
      and range and gives it token leaves that partition the range. */
  lemma {:induction false} MaterializedIff(v: Text, tokens: seq<Token>, n: Node)
    requires TokensTile(v, tokens, 0, |v|) && NoTokens(n)
    ensures Materialized(v, tokens, n).Some? <==> WellNested(v, n)
    ensures var m := Materialized(v, tokens, n);
      m.Some? ==>
        m.value.kind == n.kind && m.value.range == n.range && Partitions(v, Leaves(m.value), n.range.start, n.range.end)
    decreases Size(n), 0
  {
    hide Filled, Partitions, Chained;
    if TextOf(v, n.range).Some? {
      var annotations := Sorted(n.children);
      NoTokensMembers(n.children);
      NoTokensMembers(annotations);
      FilledIff(v, tokens, n.range, annotations, n.range.start);
      SortedWellNested(v, n.children);
      if Inside(n.children, n.range) {
        SortedChains(n.children, n.range.start);
      }
      assert Inside(annotations, n.range) <==> Inside(n.children, n.range);
      var m := Materialized(v, tokens, n);
      if m.Some? {
        assert Leaves(m.value) == [] + AllLeaves(m.value.children) == AllLeaves(m.value.children);
      }
    }
  }

  predicate NoTokens(n: Node) {
    !n.kind.TokenLeaf? && NoTokensAll(n.children)
  }

  predicate NoTokensAll(s: seq<Node>) {
    s == [] || (NoTokens(s[0]) && NoTokensAll(s[1..]))
  }

  lemma {:induction false} NoTokensMembers(s: seq<Node>)
    ensures NoTokensAll(s) <==> forall y :: y in s ==> NoTokens(y)
    decreases |s|
  {
    if s != [] {
      NoTokensMembers(s[1..]);
      assert s[0] in s;
      assert forall y :: y in s <==> y == s[0] || y in s[1..];
    }
  }

  lemma {:induction false} FilledIff(v: Text, tokens: seq<Token>, outer: TextRange, s: seq<Node>, cursor: nat)
    requires TokensTile(v, tokens, 0, |v|) && NoTokensAll(s)
    requires outer.start <= cursor <= outer.end <= |v| && Boundary(v, cursor) && Boundary(v, outer.end)
    ensures var r := Filled(v, tokens, outer, s, cursor);
      && (r.Some? <==> Inside(s, outer) && Chained(s, cursor) && AllWellNested(v, s))
      && (r.Some? ==> Partitions(v, AllLeaves(r.value), cursor, outer.end))
    decreases SizeAll(s), 1
  {
    hide Partitions, Leaves, Clipped, NoTokens;
    assert forall y :: y in s <==> s != [] && (y == s[0] || y in s[1..]);
    if s == [] {
      ClippedPartitions(v, tokens, 0, |v|, Range(cursor, outer.end));
      LeavesOfLeaves(Clipped(tokens, Range(cursor, outer.end)));
    } else {
      var a := s[0];
      if outer.start <= a.range.start && a.range.end <= outer.end && cursor <= a.range.start {
        MaterializedIff(v, tokens, a);
        var m, rest := Materialized(v, tokens, a), Filled(v, tokens, outer, s[1..], a.range.end);
        if m.Some? {
          FilledIff(v, tokens, outer, s[1..], a.range.end);
        }
        if m.Some? && rest.Some? {
          GapAndRest(v, tokens, outer, cursor, m.value, rest.value);
        }
      }
    }
  }

  lemma GapAndRest(v: Text, tokens: seq<Token>, outer: TextRange, cursor: nat, m: Node, rest: seq<Node>)
    requires TokensTile(v, tokens, 0, |v|) && cursor <= m.range.start && m.range.end <= outer.end <= |v|
    requires Boundary(v, cursor) && TextOf(v, m.range).Some?
    requires Partitions(v, Leaves(m), m.range.start, m.range.end)
    requires Partitions(v, AllLeaves(rest), m.range.end, outer.end)
    ensures Partitions(v, AllLeaves(Clipped(tokens, Range(cursor, m.range.start)) + [m] + rest), cursor, outer.end)
  {
    var gap := Clipped(tokens, Range(cursor, m.range.start));
    ClippedPartitions(v, tokens, 0, |v|, Range(cursor, m.range.start));
    LeavesOfLeaves(gap);
    AllLeavesAppend(gap, [m] + rest);
    assert ([m] + rest)[1..] == rest;
    PartitionsAppend(v, Leaves(m), AllLeaves(rest), m.range.start, m.range.end, outer.end);
    PartitionsAppend(v, gap, AllLeaves([m] + rest), cursor, m.range.start, outer.end);
    assert gap + [m] + rest == gap + ([m] + rest);
  }

  lemma {:induction false} LeavesOfLeaves(s: seq<Node>)
    requires forall x :: x in s ==> x.kind.TokenLeaf? && x.children == []
    ensures AllLeaves(s) == s
    decreases |s|
  {
    if s != [] {
      assert s[0] in s;
      LeavesOfLeaves(s[1..]);
      assert Leaves(s[0]) == [s[0]] + AllLeaves([]) == [s[0]];
    }
  }

  lemma {:induction false} AllLeavesAppend(a: seq<Node>, b: seq<Node>)
    ensures AllLeaves(a + b) == AllLeaves(a) + AllLeaves(b)
    decreases |a|
  {
    if a == [] {
      assert a + b == b;
    } else {
      assert (a + b)[1..] == a[1..] + b;
      AllLeavesAppend(a[1..], b);
    }
  }

  // ---------------------------------------------------------------- nesting

  /** Children inside their parent, at every level, token leaves included. */
  predicate Nested(n: Node) {
    Inside(n.children, n.range) && AllNested(n.children)
  }

  predicate AllNested(s: seq<Node>) {
    s == [] || (Nested(s[0]) && AllNested(s[1..]))
  }

  lemma {:induction false} AllNestedAppend(a: seq<Node>, b: seq<Node>)
    ensures AllNested(a + b) <==> AllNested(a) && AllNested(b)
    decreases |a|
  {
    if a == [] {
      assert a + b == b;
    } else {
      assert (a + b)[1..] == a[1..] + b;
      AllNestedAppend(a[1..], b);
    }
  }

  lemma {:induction false} ClippedNests(tokens: seq<Token>, r: TextRange)
    ensures AllNested(Clipped(tokens, r)) && Inside(Clipped(tokens, r), r)
    decreases |tokens|
  {
    if tokens != [] {
      ClippedNests(tokens[1..], r);
      var start, end := Max(tokens[0].range.start, r.start), Min(tokens[0].range.end, r.end);
      var head := if start < end then [Leaf(TokenLeaf(tokens[0].kind), Range(start, end))] else [];
      assert AllNested(head) by {
        assert AllNested([]);
        assert start < end ==> head[0].children == [] && head[1..] == [];
      }
      AllNestedAppend(head, Clipped(tokens[1..], r));
    } else {
      assert AllNested([]);
    }
  }

  lemma {:induction false} MaterializedNests(v: Text, tokens: seq<Token>, n: Node)
    requires Materialized(v, tokens, n).Some?
    ensures Nested(Materialized(v, tokens, n).value)
    decreases Size(n), 0
  {
    FilledNests(v, tokens, n.range, Sorted(n.children), n.range.start);
  }

  lemma {:induction false} FilledNests(v: Text, tokens: seq<Token>, outer: TextRange, s: seq<Node>, cursor: nat)
    requires outer.start <= cursor <= outer.end && Filled(v, tokens, outer, s, cursor).Some?
    ensures var r := Filled(v, tokens, outer, s, cursor).value; AllNested(r) && Inside(r, outer)
    decreases SizeAll(s), 1
  {
    hide Clipped, Nested, AllNested;
    if s == [] {
      ClippedNests(tokens, Range(cursor, outer.end));
    } else {
      var a := s[0];
      var m, gap := Materialized(v, tokens, a).value, Clipped(tokens, Range(cursor, a.range.start));
      MaterializedNests(v, tokens, a);
      FilledNests(v, tokens, outer, s[1..], a.range.end);
      ClippedNests(tokens, Range(cursor, a.range.start));
      OneNested(m);
      AllNestedAppend(gap, [m]);
      AllNestedAppend(gap + [m], Filled(v, tokens, outer, s[1..], a.range.end).value);
    }
  }

  lemma OneNested(n: Node)
    ensures AllNested([n]) <==> Nested(n)
  {
    assert AllNested([]);
  }

  // ---------------------------------------------------------------- traversal

  /** Every node below the given ones, parents before children. */
  function Preorder(s: seq<Node>): seq<Node>
    decreases SizeAll(s)
  {
    if s == [] then []
    else
      assert SizeAll(s[0].children) < Size(s[0]);
      [s[0]] + Preorder(s[0].children) + Preorder(s[1..])
  }

  function Reversed(s: seq<Node>): (r: seq<Node>)
    ensures |r| == |s| && SizeAll(r) == SizeAll(s)
  {
    if s == [] then []
    else
      SizeAppend(Reversed(s[1..]), [s[0]]);
      Reversed(s[1..]) + [s[0]]
  }

  lemma {:induction false} SizeAppend(a: seq<Node>, b: seq<Node>)
    ensures SizeAll(a + b) == SizeAll(a) + SizeAll(b)
    decreases |a|
  {
    if a == [] {
      assert a + b == b;
    } else {
      assert (a + b)[1..] == a[1..] + b;
      SizeAppend(a[1..], b);
    }
  }

  lemma {:induction false} ReversedAppend(a: seq<Node>, b: seq<Node>)
    ensures Reversed(a + b) == Reversed(b) + Reversed(a)
    decreases |a|
  {
    if a == [] {
      assert a + b == b;
    } else {
      assert (a + b)[1..] == a[1..] + b;
      ReversedAppend(a[1..], b);
    }
  }

  lemma {:induction false} ReversedTwice(s: seq<Node>)
    ensures Reversed(Reversed(s)) == s
    decreases |s|
  {
    if s != [] {
      ReversedTwice(s[1..]);
      ReversedAppend(Reversed(s[1..]), [s[0]]);
      assert Reversed([s[0]]) == [s[0]];
    }
  }

  lemma {:induction false} PreorderAppend(a: seq<Node>, b: seq<Node>)
    ensures Preorder(a + b) == Preorder(a) + Preorder(b)
    decreases |a|
  {
    if a == [] {
      assert a + b == b;
    } else {
      assert (a + b)[1..] == a[1..] + b;
      PreorderAppend(a[1..], b);
    }
  }

  /** The iterator keeps a stack: it yields the top and pushes that node's children in
      reverse, which visits exactly the recursive preorder. */
  method Descendants(root: Node) returns (out: seq<Node>)
    ensures out == Preorder(root.children)
  {
    var stack := Reversed(root.children);
    ReversedTwice(root.children);
    out := [];
    while stack != []
      invariant Preorder(root.children) == out + Preorder(Reversed(stack))
      decreases SizeAll(stack)
    {
      var node := stack[|stack| - 1];
      var rest := stack[..|stack| - 1];
      assert stack == rest + [node];
      StackStep(rest, node);
      StackShrinks(rest, node);
      stack := rest + Reversed(node.children);
      out := out + [node];
    }
  }

  lemma PreorderStep(node: Node, rest: seq<Node>)
    ensures Preorder([node] + rest) == [node] + (Preorder(node.children) + Preorder(rest))
  {
    assert ([node] + rest)[1..] == rest;
    assert SizeAll(node.children) < Size(node);
    assert [node] + Preorder(node.children) + Preorder(rest) == [node] + (Preorder(node.children) + Preorder(rest));
  }

  lemma ReversedOne(node: Node)
    ensures Reversed([node]) == [node]
  {
  }

  lemma StackStep(rest: seq<Node>, node: Node)
    ensures Preorder(Reversed(rest + [node])) == [node] + Preorder(Reversed(rest + Reversed(node.children)))
  {
    hide Preorder, Reversed, Size, SizeAll;
    ReversedAppend(rest, [node]);
    ReversedOne(node);
    PreorderStep(node, Reversed(rest));
    ReversedAppend(rest, Reversed(node.children));
    ReversedTwice(node.children);
    PreorderAppend(node.children, Reversed(rest));
  }

  lemma StackShrinks(rest: seq<Node>, node: Node)
    ensures SizeAll(rest + Reversed(node.children)) < SizeAll(rest + [node])
  {
    SizeAppend(rest, [node]);
    SizeAppend(rest, Reversed(node.children));
  }

  function TokensIn(s: seq<Node>): seq<Node> {
    if s == [] then [] else (if s[0].kind.TokenLeaf? then [s[0]] else []) + TokensIn(s[1..])
  }

  lemma {:induction false} TokensInAppend(a: seq<Node>, b: seq<Node>)
    ensures TokensIn(a + b) == TokensIn(a) + TokensIn(b)
    decreases |a|
  {
    if a == [] {
      assert a + b == b;
    } else {
      assert (a + b)[1..] == a[1..] + b;
      TokensInAppend(a[1..], b);
      var head := if a[0].kind.TokenLeaf? then [a[0]] else [];
      assert head + (TokensIn(a[1..]) + TokensIn(b)) == head + TokensIn(a[1..]) + TokensIn(b);
    }
  }

  lemma TokensInStep(s: seq<Node>, i: nat)
    requires i < |s|
    ensures if s[i].kind.TokenLeaf?
            then TokensIn(s[i..]) != [] && TokensIn(s[i..])[0] == s[i] && TokensIn(s[i..])[1..] == TokensIn(s[i + 1..])
            else TokensIn(s[i..]) == TokensIn(s[i + 1..])
  {
    assert s[i..][1..] == s[i + 1..];
  }

  lemma {:induction false} TokensInPreorder(s: seq<Node>)
    ensures TokensIn(Preorder(s)) == AllLeaves(s)
    decreases SizeAll(s)
  {
    if s != [] {
      assert SizeAll(s[0].children) < Size(s[0]);
      TokensInPreorder(s[0].children);
      TokensInPreorder(s[1..]);
      TokensInAppend([s[0]] + Preorder(s[0].children), Preorder(s[1..]));
      TokensInAppend([s[0]], Preorder(s[0].children));
    }
  }

  /** The final check of tree construction, over the traversal. */
  method LeavesPartitionSource(v: Text, root: Node) returns (b: bool)
    requires forall x :: x in AllLeaves(root.children) ==> TextOf(v, x.range).Some?
    ensures b <==> Partitions(v, AllLeaves(root.children), 0, |v|)
  {
    var nodes := Descendants(root);
    TokensInPreorder(root.children);
    var cursor: nat := 0;
    var i: nat := 0;
    assert nodes[0..] == nodes;
    while i < |nodes|
      invariant 0 <= i <= |nodes|
      invariant Partitions(v, AllLeaves(root.children), 0, |v|) <==> Partitions(v, TokensIn(nodes[i..]), cursor, |v|)
      invariant forall x :: x in TokensIn(nodes[i..]) ==> TextOf(v, x.range).Some?
    {
      TokensInStep(nodes, i);
      if nodes[i].kind.TokenLeaf? {
        if nodes[i].range.start != cursor || nodes[i].range.start >= nodes[i].range.end {
          return false;
        }
        cursor := nodes[i].range.end;
      }
      i := i + 1;
    }
    assert nodes[i..] == [];
    return cursor == |v|;
  }

  /** Concatenates the text of the token leaves met by the traversal. */
  method Reconstruct(v: Text, root: Node) returns (output: Text)
    requires Partitions(v, AllLeaves(root.children), 0, |v|)
    ensures output == v
  {
    var nodes := Descendants(root);
    TokensInPreorder(root.children);
    output := [];
    ghost var cursor: nat := 0;
    var i: nat := 0;
    assert nodes[0..] == nodes;
    while i < |nodes|
      invariant 0 <= i <= |nodes| && cursor <= |v| && output == v[..cursor]
      invariant Partitions(v, TokensIn(nodes[i..]), cursor, |v|)
    {
      TokensInStep(nodes, i);
      if nodes[i].kind.TokenLeaf? {
        output := output + TextOf(v, nodes[i].range).value;
        cursor := nodes[i].range.end;
      }
      i := i + 1;
    }
    assert nodes[i..] == [];
  }

  // ---------------------------------------------------------------- the tree

  /** Block nodes that follow each other from `from` to the end of the text. */
  predicate Contiguous(v: Text, blocks: seq<Node>, from: nat) {
    if blocks == [] then from == |v|
    else
      && IsBlock(blocks[0].kind)
      && blocks[0].range.start == from
      && TextOf(v, blocks[0].range).Some?
      && Contiguous(v, blocks[1..], blocks[0].range.end)
  }

  /** Builds the tree over contiguous blocks. For blocks that hold no tokens yet it succeeds
      exactly when they are contiguous and well nested: the closing partition check rejects
      nothing that the earlier checks let through. */
  method FromBlocks(d: Document, blocks: seq<Node>) returns (r: Option<Node>)
    requires DocumentOk(d) && NoTokensAll(blocks)
    ensures r.Some? <==> Contiguous(d.source, blocks, 0) && AllWellNested(d.source, blocks)
    ensures r.Some? ==> Partitions(d.source, AllLeaves(r.value.children), 0, |d.source|)
    ensures r.Some? ==>
      |r.value.children| == |blocks| && r.value.kind == DocumentRoot && r.value.range == Range(0, |d.source|)
    ensures r.Some? ==> Nested(r.value)
    ensures r.Some? ==> forall i :: 0 <= i < |blocks| ==>
      r.value.children[i].kind == blocks[i].kind && r.value.children[i].range == blocks[i].range
    ensures r.Some? ==> forall i :: 0 <= i < |blocks| ==>
      Materialized(d.source, d.tokens, blocks[i]) == Some(r.value.children[i])
  {
    hide DocumentOk, WellNested, Materialized, Partitions, AllLeaves, Nested, AllNested, Contiguous, AllWellNested,
      NoTokensAll, NoTokens;
    var v := d.source;
    NoChildren(v);
    DocumentIsLossless(d);
    var cursor: nat := 0;
    var children: seq<Node> := [];
    var i: nat := 0;
    assert blocks[0..] == blocks;
    while i < |blocks|
      invariant 0 <= i <= |blocks| && |children| == i && cursor <= |v|
      invariant NoTokensAll(blocks[i..])
      invariant Contiguous(v, blocks, 0) && AllWellNested(v, blocks) <==>
        Contiguous(v, blocks[i..], cursor) && AllWellNested(v, blocks[i..])
      invariant Partitions(v, AllLeaves(children), 0, cursor)
      invariant AllNested(children) && Inside(children, Range(0, |v|))
      invariant forall k :: 0 <= k < i ==> children[k].kind == blocks[k].kind && children[k].range == blocks[k].range
      invariant forall k :: 0 <= k < i ==> Materialized(v, d.tokens, blocks[k]) == Some(children[k])
    {
      var block := blocks[i];
      BlocksStep(v, blocks, i, cursor);
      if !IsBlock(block.kind) || block.range.start != cursor || |v| < block.range.end || TextOf(v, block.range).None? {
        return None;
      }
      var m := Materialize(d, block);
      MaterializedIff(v, d.tokens, block);
      if m.None? {
        return None;
      }
      MaterializedNests(v, d.tokens, block);
      ChildAdded(v, children, cursor, m.value);
      children := children + [m.value];
      cursor := block.range.end;
      i := i + 1;
    }
    assert blocks[i..] == [];
    NoBlocks(v, cursor);
    if cursor != |v| {
      return None;
    }
    var root := Node(DocumentRoot, Range(0, |v|), children);
    PartitionsAreText(v, AllLeaves(children), 0, |v|);
    var ok := LeavesPartitionSource(v, root);
    if !ok {
      return None;
    }
    RootNests(root);
    return Some(root);
  }

  lemma BlocksStep(v: Text, blocks: seq<Node>, i: nat, cursor: nat)
    requires i < |blocks| && NoTokensAll(blocks[i..])
    ensures var b := blocks[i];
      && NoTokens(b) && NoTokensAll(blocks[i + 1..])
      && (Contiguous(v, blocks[i..], cursor) && AllWellNested(v, blocks[i..]) <==>
            && IsBlock(b.kind) && b.range.start == cursor && TextOf(v, b.range).Some? && WellNested(v, b)
            && Contiguous(v, blocks[i + 1..], b.range.end) && AllWellNested(v, blocks[i + 1..]))
  {
    hide WellNested, NoTokens;
    assert blocks[i..][0] == blocks[i] && blocks[i..][1..] == blocks[i + 1..];
  }

  lemma NoBlocks(v: Text, cursor: nat)
    ensures (Contiguous(v, [], cursor) <==> cursor == |v|) && AllWellNested(v, [])
  {
  }

  lemma NoChildren(v: Text)
    ensures Partitions(v, AllLeaves([]), 0, 0) && AllNested([])
  {
  }

  lemma RootNests(root: Node)
    requires AllNested(root.children) && Inside(root.children, root.range)
    ensures Nested(root)
  {
    hide AllNested;
  }

  /** One more child, whose leaves go on where those of the others end. */
  lemma ChildAdded(v: Text, children: seq<Node>, cursor: nat, n: Node)
    requires Partitions(v, AllLeaves(children), 0, cursor) && AllNested(children)
    requires Partitions(v, Leaves(n), cursor, n.range.end) && Nested(n)
    ensures Partitions(v, AllLeaves(children + [n]), 0, n.range.end) && AllNested(children + [n])
  {
    hide Partitions, Nested, Leaves, AllNested;
    OneNested(n);
    AllNestedAppend(children, [n]);
    AllLeavesAppend(children, [n]);
    assert AllLeaves([n]) == Leaves(n) + AllLeaves([]) == Leaves(n);
    PartitionsAppend(v, AllLeaves(children), Leaves(n), 0, cursor, n.range.end);
  }

  lemma {:induction false} PartitionsAreText(v: Text, s: seq<Node>, from: nat, end: nat)
    requires Partitions(v, s, from, end)
    ensures forall x :: x in s ==> TextOf(v, x.range).Some?
    decreases |s|
  {
    if s != [] {
      PartitionsAreText(v, s[1..], s[0].range.end, end);
      assert forall y :: y in s <==> y == s[0] || y in s[1..];
    }
  }
}
