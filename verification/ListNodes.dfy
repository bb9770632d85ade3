/** List items cover the lines they are read from, and their syntax nodes nest. */
module ListNodes {
  import opened Text
  import opened Source
  import opened BlockGrammar
  import opened BlockModel
  import opened BlockState
  import opened BlockSteps
  import opened BlockParser
  import opened ListTree
  import N = InlineNodes
  import S = Syntax

  ghost predicate TermsFit(c: Context, terms: seq<TextRange>, lo: nat, hi: nat) {
    if terms == [] then lo <= hi
    else
      && lo <= terms[0].start && TextOf(c.document.source, terms[0]).Some?
      && TermsFit(c, terms[1..], terms[0].end, hi)
  }

  /** The parts of an item: terms, then its marker, then its text, each whole characters. */
  ghost predicate ItemFits(c: Context, f: ListItem) {
    var x, v := f.content, c.document.source;
    && TextOf(v, f.range).Some?
    && TermsFit(c, x.terms, f.range.start, x.marker.start)
    && TextOf(v, x.marker).Some? && x.marker.end <= x.text.start
    && TextOf(v, x.text).Some? && x.text.end <= f.range.end
    && 1 <= f.depth <= Max(c.maxListDepth, 1)
  }

  /** Items that follow each other from `from` to `end` without a gap. */
  ghost predicate ItemsChain(c: Context, s: seq<ListItem>, from: nat, end: nat) {
    if s == [] then from == end
    else s[0].range.start == from && ItemFits(c, s[0]) && ItemsChain(c, s[1..], s[0].range.end, end)
  }

  lemma {:induction false} ChainAscends(c: Context, s: seq<ListItem>, from: nat, end: nat)
    requires ItemsChain(c, s, from, end)
    ensures Ascending(s) && from <= end
    ensures s != [] ==> s[0].range.start == from && s[|s| - 1].range.end == end
    decreases |s|
  {
    hide ItemFits;
    if s != [] {
      ChainAscends(c, s[1..], s[0].range.end, end);
      if |s| > 1 {
        assert s[1..][0] == s[1] && s[1..][|s| - 2] == s[|s| - 1];
      } else {
        assert s[1..] == [];
      }
    }
  }

  lemma {:induction false} ChainMembers(c: Context, s: seq<ListItem>, from: nat, end: nat)
    requires ItemsChain(c, s, from, end)
    ensures forall i :: 0 <= i < |s| ==> ItemFits(c, s[i])
    decreases |s|
  {
    hide ItemFits;
    if s != [] {
      ChainMembers(c, s[1..], s[0].range.end, end);
      assert forall i :: 1 <= i < |s| ==> s[i] == s[1..][i - 1];
    }
  }

  // ---------------------------------------------------------------- merged terms

  lemma {:induction false} TermsJoin(c: Context, a: seq<TextRange>, b: seq<TextRange>, lo: nat, mid: nat, hi: nat)
    requires TermsFit(c, a, lo, mid) && TermsFit(c, b, mid, hi)
    ensures TermsFit(c, a + b, lo, hi)
    decreases |a|
  {
    if a == [] {
      assert a + b == b;
      TermsEarlier(c, b, mid, lo, hi);
    } else {
      TermsJoin(c, a[1..], b, a[0].end, mid, hi);
      assert (a + b)[1..] == a[1..] + b;
    }
  }

  lemma TermsEarlier(c: Context, b: seq<TextRange>, from: nat, lo: nat, hi: nat)
    requires TermsFit(c, b, from, hi) && lo <= from
    ensures TermsFit(c, b, lo, hi)
  {
    TermsOrder(c, b, from, hi);
  }

  lemma {:induction false} TermsOrder(c: Context, b: seq<TextRange>, from: nat, hi: nat)
    requires TermsFit(c, b, from, hi)
    ensures from <= hi
    decreases |b|
  {
    if b != [] {
      TermsOrder(c, b[1..], b[0].end, hi);
    }
  }

  lemma {:induction false} TermsLater(c: Context, b: seq<TextRange>, from: nat, mid: nat, hi: nat)
    requires TermsFit(c, b, from, mid) && mid <= hi
    ensures TermsFit(c, b, from, hi)
    decreases |b|
  {
    if b != [] {
      TermsLater(c, b[1..], b[0].end, mid, hi);
    }
  }

  lemma CombinedFits(c: Context, a: ListItem, b: ListItem)
    requires ItemFits(c, a) && ItemFits(c, b) && a.range.end == b.range.start
    ensures a.range.start <= b.range.end && ItemFits(c, Combined(a, b))
  {
    TermsLater(c, a.content.terms, a.range.start, a.content.marker.start, b.range.start);
    TermsJoin(c, a.content.terms, b.content.terms, a.range.start, b.range.start, b.content.marker.start);
  }

  /** Merging terms leaves items that cover the same source. */
  lemma {:induction false} MergeKeepsChain(c: Context, s: seq<ListItem>, from: nat, end: nat)
    requires ItemsChain(c, s, from, end)
    ensures Ascending(s) && ItemsChain(c, MergeTerms(s), from, end)
    decreases |s|
  {
    hide ItemFits, Combines;
    ChainAscends(c, s, from, end);
    if |s| >= 2 {
      assert s[1..][0] == s[1] && s[1..][1..] == s[2..];
      if Combines(s[0], s[1]) {
        CombinedFits(c, s[0], s[1]);
        var first := Combined(s[0], s[1]);
        assert ([first] + s[2..])[1..] == s[2..];
        MergeKeepsChain(c, [first] + s[2..], from, end);
      } else {
        MergeKeepsChain(c, s[1..], s[0].range.end, end);
        var rest := MergeTerms(s[1..]);
        assert ([s[0]] + rest)[1..] == rest;
      }
    }
  }

  // ---------------------------------------------------------------- nodes of one item

  lemma {:induction false} TermsRow(c: Context, terms: seq<TextRange>, lo: nat, hi: nat)
    requires TermsFit(c, terms, lo, hi)
    ensures N.Row(TermNodes(c, terms), lo, hi) && S.AllWellNested(c.document.source, TermNodes(c, terms))
    decreases |terms|
  {
    hide Ready, PlainNodes, N.Row, S.AllWellNested, TextOf;
    if terms == [] {
      N.EmptyRow(c.document.source, Range(lo, hi));
    } else {
      PlainNodesRow(c, terms[0]);
      TermsRow(c, terms[1..], terms[0].end, hi);
      TermsOrder(c, terms[1..], terms[0].end, hi);
      RowWithin(PlainNodes(c, terms[0]), terms[0].start, terms[0].end, lo, terms[0].end);
      N.RowAppend(PlainNodes(c, terms[0]), TermNodes(c, terms[1..]), lo, terms[0].end, hi);
      N.WellNestedAppend(c.document.source, PlainNodes(c, terms[0]), TermNodes(c, terms[1..]));
    }
  }

  /** A marker put before the terms it follows in the source still is apart from them. */
  lemma MarkerApart(marker: S.Node, before: seq<S.Node>, after: seq<S.Node>, lo: nat, hi: nat)
    requires N.Row(before, lo, marker.range.start) && N.Row(after, marker.range.end, hi)
    ensures S.AllApart([marker] + before + after) && S.Inside([marker] + before + after, Range(lo, hi))
  {
    hide S.NoTokensAll;
    N.RowGap(before, after, lo, marker.range.start, marker.range.end, hi);
    N.RowIsApart(before + after, lo);
    S.ChainedIsLater(after, marker.range.end);
    var all := [marker] + before + after;
    assert all[1..] == before + after;
    assert forall y :: y in before + after <==> y in before || y in after;
    assert forall y :: y in all <==> y == marker || y in before + after;
  }

  ghost predicate ItemNests(c: Context, x: ItemText, range: TextRange, children: seq<S.Node>) {
    && N.Row([ItemNode(c, x, range, children)], range.start, range.end)
    && (S.AllWellNested(c.document.source, [ItemNode(c, x, range, children)])
        <==> Lands(c, x.text) && S.AllWellNested(c.document.source, children))
  }

  lemma ItemNodeNests(c: Context, f: ListItem, range: TextRange, children: seq<S.Node>)
    requires ItemFits(c, f) && range.start == f.range.start && f.range.end <= range.end
    requires TextOf(c.document.source, range).Some? && N.Row(children, f.range.end, range.end)
    ensures ItemNests(c, f.content, range, children)
  {
    hide Ready, TermsFit, TermNodes, BrokenNodes, Lands, N.Row, S.AllWellNested, S.AllApart, TextOf;
    var x, v := f.content, c.document.source;
    var marker, terms, text := S.Leaf(S.ListMarker, x.marker), TermNodes(c, x.terms), BrokenNodes(c, x.text);
    TermsRow(c, x.terms, range.start, x.marker.start);
    N.LeafRow(v, S.ListMarker, x.marker);
    BrokenNodesRow(c, x.text);
    N.RowGap(text, children, x.text.start, x.text.end, f.range.end, range.end);
    RowWithin(text + children, x.text.start, range.end, x.marker.end, range.end);
    MarkerApart(marker, terms, text + children, range.start, range.end);
    N.WellNestedAppend(v, text, children);
    N.WellNestedAppend(v, [marker] + terms, text + children);
    N.WellNestedAppend(v, [marker], terms);
    assert [marker] + terms + text + children == [marker] + terms + (text + children);
    NodeNests(v, ItemNode(c, x, range, children), [marker], terms, text + children, range.start, x.marker, range.end);
  }

  lemma NodeNests(v: Text, n: S.Node, a: seq<S.Node>, b: seq<S.Node>, d: seq<S.Node>, lo: nat, mid: TextRange, hi: nat)
    requires n.children == a + b + d && n.range == Range(lo, hi) && TextOf(v, n.range).Some? && !n.kind.TokenLeaf?
    requires N.Row(a, mid.start, mid.end) && N.Row(b, lo, mid.start) && N.Row(d, mid.end, hi)
    requires S.AllApart(n.children) && S.Inside(n.children, n.range)
    ensures N.Row([n], lo, hi) && (S.AllWellNested(v, [n]) <==> S.AllWellNested(v, n.children))
  {
    hide S.AllWellNested, S.AllApart, S.Chained;
    S.NoTokensMembers(a);
    S.NoTokensMembers(b);
    S.NoTokensMembers(d);
    S.NoTokensMembers(n.children);
    N.OneNode(v, n);
  }

  // ---------------------------------------------------------------- nodes of a forest

  lemma {:induction false} ItemTextsAppend(a: seq<ListItem>, b: seq<ListItem>)
    ensures ItemTexts(a + b) == ItemTexts(a) + ItemTexts(b)
    decreases |a|
  {
    if a == [] {
      assert a + b == b;
    } else {
      assert (a + b)[1..] == a[1..] + b;
      ItemTextsAppend(a[1..], b);
    }
  }

  ghost predicate AllFit(c: Context, s: seq<ListItem>) {
    forall f :: f in s ==> ItemFits(c, f)
  }

  lemma AllFitParts(c: Context, a: seq<ListItem>, b: seq<ListItem>)
    requires AllFit(c, a + b)
    ensures AllFit(c, a) && AllFit(c, b)
  {
    hide ItemFits;
    assert forall f :: f in a || f in b ==> f in a + b;
  }

  /** What the nodes of some items or lists are like, given the items they come from. */
  ghost predicate Nests(c: Context, nodes: seq<S.Node>, flat: seq<ListItem>, lo: nat, hi: nat) {
    && N.Row(nodes, lo, hi)
    && (S.AllWellNested(c.document.source, nodes) <==> AllLand(c, ItemTexts(flat)))
  }

  lemma NestsJoin(c: Context, a: seq<S.Node>, b: seq<S.Node>, x: seq<ListItem>, y: seq<ListItem>, lo: nat,
      mid: nat, hi: nat)
    requires Nests(c, a, x, lo, mid) && Nests(c, b, y, mid, hi)
    ensures Nests(c, a + b, x + y, lo, hi)
  {
    hide Ready, Lands, N.Row, S.AllWellNested, AllLand;
    N.RowAppend(a, b, lo, mid, hi);
    N.WellNestedAppend(c.document.source, a, b);
    ItemTextsAppend(x, y);
    LandsAppend(c, ItemTexts(x), ItemTexts(y));
  }

  lemma NothingNests(c: Context, lo: nat, hi: nat)
    requires lo <= hi
    ensures Nests(c, [], [], lo, hi)
  {
    hide Lands;
    N.EmptyRow(c.document.source, Range(lo, hi));
  }

  /** The node of one item with the nodes of its child lists. */
  lemma ItemJoins(c: Context, f: ListItem, range: TextRange, children: seq<S.Node>, below: seq<ListItem>, lo: nat)
    requires ItemFits(c, f) && range.start == f.range.start && f.range.end <= range.end && lo <= range.start
    requires TextOf(c.document.source, range).Some? && Nests(c, children, below, f.range.end, range.end)
    ensures Nests(c, [ItemNode(c, f.content, range, children)], [f] + below, lo, range.end)
  {
    hide Ready, Lands, N.Row, S.AllWellNested, AllLand, ItemNode, ItemFits, TextOf;
    ItemNodeNests(c, f, range, children);
    RowWithin([ItemNode(c, f.content, range, children)], range.start, range.end, lo, range.end);
    assert ([f] + below)[1..] == below;
    LandsAppend(c, [f.content.text], ItemTexts(below));
    OneLands(c, f.content.text);
  }

  lemma OneLands(c: Context, r: TextRange)
    ensures AllLand(c, [r]) <==> Lands(c, r)
  {
    hide Lands;
    assert r in [r];
  }

  ghost predicate EndLands(c: Context, at: nat) {
    at <= |c.document.source| && Boundary(c.document.source, at)
  }

  lemma {:induction false} ItemsNest(c: Context, items: seq<Item<ItemText>>, depth: nat, kind: ListKind,
      lo: nat, hi: nat)
    requires ItemsOk(items, depth, kind) && Fits(items, lo, hi) && AllFit(c, FlattenItems(items))
    ensures Nests(c, ItemsNodes(c, items), FlattenItems(items), lo, hi)
    ensures items != [] ==> EndLands(c, items[|items| - 1].range.end)
    decreases items
  {
    hide Ready, ItemFits, Nests, ItemNode, AllFit, ListsOk, ListsFit, FlattenLists, ListsNodes;
    if items == [] {
      NothingNests(c, lo, hi);
    } else {
      var item, rest := items[0], items[1..];
      var below := FlattenLists(item.children);
      AllFitParts(c, [item.flat] + below, FlattenItems(rest));
      AllFitParts(c, [item.flat], below);
      FitsOne(c, item.flat);
      ListsNest(c, item.children, depth, item.flat.range.end, item.range.end);
      ItemRangeLands(c, item);
      ItemJoins(c, item.flat, item.range, ListsNodes(c, item.children), below, lo);
      ItemsNest(c, rest, depth, kind, item.range.end, hi);
      var node := ItemNode(c, item.flat.content, item.range, ListsNodes(c, item.children));
      NestsJoin(c, [node], ItemsNodes(c, rest), [item.flat] + below, FlattenItems(rest), lo, item.range.end, hi);
      LastOfItems(items);
    }
  }

  lemma FitsOne(c: Context, f: ListItem)
    requires AllFit(c, [f])
    ensures ItemFits(c, f)
  {
    hide ItemFits;
    assert f in [f];
  }

  lemma LastOfItems<T>(items: seq<Item<T>>)
    requires items != []
    ensures if |items| == 1 then items[|items| - 1] == items[0] && items[1..] == []
      else items[1..] != [] && items[1..][|items[1..]| - 1] == items[|items| - 1]
  {
  }

  lemma ItemRangeLands(c: Context, item: Item<ItemText>)
    requires ItemFits(c, item.flat) && item.range.start == item.flat.range.start && item.range.end == EndOf(item)
    requires ListsFit(item.children, item.flat.range.end, item.range.end)
    requires item.children != [] ==> EndLands(c, item.children[|item.children| - 1].range.end)
    ensures item.flat.range.end <= item.range.end && EndLands(c, item.range.end)
      && TextOf(c.document.source, item.range).Some?
  {
    hide Ready, TermsFit, ListsFit;
    ListsFitOrder(item.children, item.flat.range.end, item.range.end);
  }

  lemma {:induction false} ListsFitOrder<T>(ls: seq<ListBlock<T>>, lo: nat, hi: nat)
    requires ListsFit(ls, lo, hi)
    ensures lo <= hi
    decreases |ls|
  {
    if ls != [] {
      ListsFitOrder(ls[1..], ls[0].range.end, hi);
    }
  }

  lemma {:induction false} ListsNest(c: Context, ls: seq<ListBlock<ItemText>>, above: nat, lo: nat, hi: nat)
    requires ListsOk(ls, above) && ListsFit(ls, lo, hi) && AllFit(c, FlattenLists(ls))
    ensures Nests(c, ListsNodes(c, ls), FlattenLists(ls), lo, hi)
    ensures ls != [] ==> EndLands(c, ls[|ls| - 1].range.end)
    decreases ls
  {
    hide Ready, ItemFits, Nests, AllFit, ItemsOk, Fits, FlattenItems, ItemsNodes;
    if ls == [] {
      NothingNests(c, lo, hi);
    } else {
      var l, rest := ls[0], ls[1..];
      AllFitParts(c, FlattenItems(l.items), FlattenLists(rest));
      ItemsNest(c, l.items, l.items[0].flat.depth, l.kind, l.range.start, l.range.end);
      ListsNest(c, rest, above, l.range.end, hi);
      NestsWithin(c, ItemsNodes(c, l.items), FlattenItems(l.items), l.range.start, l.range.end, lo);
      NestsJoin(c, ItemsNodes(c, l.items), ListsNodes(c, rest), FlattenItems(l.items), FlattenLists(rest), lo,
        l.range.end, hi);
      if |ls| > 1 {
        assert rest[|rest| - 1] == ls[|ls| - 1];
      }
    }
  }

  lemma NestsWithin(c: Context, a: seq<S.Node>, x: seq<ListItem>, from: nat, hi: nat, lo: nat)
    requires Nests(c, a, x, from, hi) && lo <= from
    ensures Nests(c, a, x, lo, hi)
  {
    hide Lands, AllLand, S.AllWellNested, N.Row;
    RowWithin(a, from, hi, lo, hi);
  }

  /** The list node over a chain of items: its item nodes stand in a row inside it, and are
      well nested exactly when every split text lands. Nesting is bounded by the depth limit. */
  lemma ListNodeNests(c: Context, flat: seq<ListItem>, from: nat, end: nat)
    requires ItemsChain(c, flat, from, end) && flat != []
    ensures from <= end && InOrder(flat) && Height(Forest(flat, 0)) <= Max(c.maxListDepth, 1)
    ensures var r := ListNode(c, flat, from);
      && r.Ok? && r.value.0 == S.Node(S.List, Range(from, end), r.value.0.children)
      && N.Row(r.value.0.children, from, end)
      && (S.AllWellNested(c.document.source, r.value.0.children) <==> AllLand(c, r.value.1))
  {
    hide Ready, ItemFits, Lands, AllLand, S.AllWellNested, N.Row, ListsOk, ListsFit, FlattenLists, ItemTexts, InOrder,
      Ascending, ItemsChain, Forest, ListsNodes, Height;
    ChainAscends(c, flat, from, end);
    AscendingIsInOrder(flat);
    Depths(c, flat, from, end);
    ForestShape(flat, 0);
    ForestHeight(flat, Max(c.maxListDepth, 1));
    ForestFits(flat, 0, from);
    ForestFlattens(flat, 0);
    assert flat[0..] == flat;
    ListsNest(c, Forest(flat, 0), 0, from, end);
  }

  lemma Depths(c: Context, s: seq<ListItem>, from: nat, end: nat)
    requires ItemsChain(c, s, from, end)
    ensures forall i :: 0 <= i < |s| ==> 1 <= s[i].depth <= Max(c.maxListDepth, 1)
    ensures AllFit(c, s)
  {
    hide TermsFit, TextOf;
    ChainMembers(c, s, from, end);
  }

  // ---------------------------------------------------------------- items as they are read

  lemma {:induction false} PrincipalItemFits(c: Context, i: nat, end: nat)
    requires i < end <= LineCount(c) && MarkerOf(Content(c, i)).Some?
    ensures var r := PrincipalItem(c, i, end);
      r.Ok? && ItemFits(c, r.value.0) && r.value.0.range == Span(c, i, r.value.1)
  {
    hide Ready, MarkerOf, Content, LineStart, Boundary, Checkbox, TermsFit, PrincipalEnd;
    MarkerParts(c, i);
    var m := MarkerOf(Content(c, i)).value;
    var next := if m.kind == Callout then i + 1 else PrincipalEnd(c, i + 1, end);
    LinesText(c, i, next);
    if i + 1 < next {
      ContentStart(c, i + 1, next);
    }
    var l := LineAt(c, i);
    if m.term.Some? {
      OneTerm(c, Range(l.content.start, l.content.start + m.start));
    } else {
      NoTerm(c, l.content.start, l.content.start + m.start);
    }
  }

  lemma OneTerm(c: Context, r: TextRange)
    requires TextOf(c.document.source, r).Some?
    ensures TermsFit(c, [r], r.start, r.end)
  {
    assert [r][1..] == [];
    NoTerm(c, r.end, r.end);
  }

  lemma NoTerm(c: Context, lo: nat, hi: nat)
    requires lo <= hi
    ensures TermsFit(c, [], lo, hi)
  {
  }

  lemma LinesText(c: Context, i: nat, next: nat)
    requires i < next <= LineCount(c)
    ensures var v, from, end := c.document.source, LineAt(c, i), LineAt(c, next - 1);
      && Range(from.full.start, end.full.end) == Span(c, i, next) && TextOf(v, Span(c, i, next)).Some?
      && from.content.end <= end.content.end <= end.full.end <= |v| && Boundary(v, end.content.end)
  {
    hide Ready;
    LineFacts(c, i);
    LineFacts(c, next - 1);
    LinesAscend(c, i, next);
    if i < next - 1 {
      LinesAscend(c, i + 1, next - 1);
    }
  }

  lemma ContentStart(c: Context, i: nat, next: nat)
    requires 0 < i < next <= LineCount(c)
    ensures var v, l := c.document.source, LineAt(c, i);
      && l.content.start <= LineAt(c, next - 1).content.end && LineAt(c, i - 1).content.end <= l.content.start <= |v|
         && Boundary(v, l.content.start)
  {
    hide Ready;
    LineFacts(c, i - 1);
    LineFacts(c, i);
    LineFacts(c, next - 1);
    LinesAscend(c, i, next - 1);
  }

  /** The cuts a marker makes in its line are cuts between characters of the source. */
  lemma MarkerParts(c: Context, i: nat)
    requires i < LineCount(c) && MarkerOf(Content(c, i)).Some?
    ensures var v, l, m := c.document.source, LineAt(c, i), MarkerOf(Content(c, i)).value;
      var check := if Checkbox(Content(c, i), m.text) then 4 else 0;
      && l.full.start == l.content.start && m.start < m.end <= m.text
         && l.content.start + m.text + check <= l.content.end <= |v|
      && Boundary(v, l.content.start) && Boundary(v, l.content.end) && Boundary(v, l.content.start + m.start)
         && Boundary(v, l.content.start + m.end)
      && Boundary(v, l.content.start + m.text) && Boundary(v, l.content.start + m.text + check)
      && 1 <= m.depth && (m.term.Some? ==> m.term.value == m.start)
  {
    hide Ready, MarkerOf, Boundary, Valid;
    LineFacts(c, i);
    SourceIsValid(c);
    var v, l, content := c.document.source, LineAt(c, i), Content(c, i);
    var m := MarkerOf(content).value;
    SliceIsValid(v, l.content.start, l.content.end);
    MarkerLands(m, content);
    if Checkbox(content, m.text) {
      AsciiIsWhole(content, m.text + 3);
    }
  }
}
