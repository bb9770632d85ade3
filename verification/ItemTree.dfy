/** The nodes of a list, told from its items alone: an item holds the items after it that are deeper. */
module ItemTree {
  import opened Text
  import opened Source
  import opened BlockModel
  import opened BlockParser
  import opened ListTree
  import S = Syntax

  // ---------------------------------------------------------------- nested items

  /** Where the items that are deeper than `depth` end. */
  function DeeperEnd(s: seq<ListItem>, i: nat, end: nat, depth: nat): (r: nat)
    requires i <= end <= |s|
    ensures i <= r <= end && (r < end ==> s[r].depth <= depth)
    ensures forall j :: i <= j < r ==> depth < s[j].depth
    decreases end - i
  {
    if i < end && depth < s[i].depth then DeeperEnd(s, i + 1, end, depth) else i
  }

  /** The inlines of all terms. */
  function TermsShown(c: Context, terms: seq<TextRange>): seq<S.Node> {
    hide Ready, PlainNodes;
    if terms == [] then []
    else TermsShown(c, terms[..|terms| - 1]) + PlainNodes(c, terms[|terms| - 1])
  }

  /** What an item shows of itself. */
  function Own(c: Context, x: ItemText): seq<S.Node> {
    hide Ready, BrokenNodes;
    [S.Leaf(S.ListMarker, x.marker)] + TermsShown(c, x.terms) + BrokenNodes(c, x.text)
  }

  function Shown(c: Context, f: ListItem, stop: nat, below: seq<S.Node>): S.Node {
    hide Ready, Own;
    S.Node(S.ListItem, Range(f.range.start, Max(f.range.start, stop)), Own(c, f.content) + below)
  }

  /** One node for each item that is in no other one, from its marker to the end of the last item it holds. */
  function TreeOf(c: Context, s: seq<ListItem>, i: nat, end: nat): seq<S.Node>
    requires i <= end <= |s|
    decreases end - i
  {
    hide Shown;
    if i == end then []
    else
      var next := DeeperEnd(s, i + 1, end, s[i].depth);
      [Shown(c, s[i], s[next - 1].range.end, TreeOf(c, s, i + 1, next))] + TreeOf(c, s, next, end)
  }

  lemma {:induction false} TermsAreShown(c: Context, terms: seq<TextRange>)
    ensures TermNodes(c, terms) == TermsShown(c, terms)
    decreases |terms|
  {
    hide Ready, PlainNodes;
    if |terms| == 1 {
      assert terms[1..] == [] == terms[..0];
      assert PlainNodes(c, terms[0]) + [] == PlainNodes(c, terms[0]) == [] + PlainNodes(c, terms[0]);
    } else if terms != [] {
      var n := |terms|;
      TermsAreShown(c, terms[1..]);
      TermsAreShown(c, terms[..n - 1]);
      TermsAreShown(c, terms[1..n - 1]);
      assert terms[1..][..n - 2] == terms[1..n - 1] == terms[..n - 1][1..];
    }
  }

  lemma {:induction false} DeeperSplits(s: seq<ListItem>, i: nat, mid: nat, end: nat, depth: nat)
    requires i <= mid <= end <= |s| && (mid < end ==> s[mid].depth <= depth)
    ensures DeeperEnd(s, i, end, depth) == DeeperEnd(s, i, mid, depth)
    decreases mid - i
  {
    if i < mid && depth < s[i].depth {
      DeeperSplits(s, i + 1, mid, end, depth);
    }
  }

  /** An item that is no deeper than all before it starts a tree of its own. */
  lemma {:induction false} TreeSplits(c: Context, s: seq<ListItem>, i: nat, mid: nat, end: nat)
    requires i <= mid <= end <= |s| && (mid < end ==> forall j :: i <= j < mid ==> s[mid].depth <= s[j].depth)
    ensures TreeOf(c, s, i, end) == TreeOf(c, s, i, mid) + TreeOf(c, s, mid, end)
    decreases mid - i
  {
    hide Ready, Shown, DeeperEnd, TreeOf;
    if i == mid {
      NothingShown(c, s, i);
    } else {
      DeeperSplits(s, i + 1, mid, end, s[i].depth);
      var next := DeeperEnd(s, i + 1, mid, s[i].depth);
      TreeSplits(c, s, next, mid, end);
      TreeStep(c, s, i, mid);
      TreeStep(c, s, i, end);
      var first := [Shown(c, s[i], s[next - 1].range.end, TreeOf(c, s, i + 1, next))];
      assert first + (TreeOf(c, s, next, mid) + TreeOf(c, s, mid, end))
        == first + TreeOf(c, s, next, mid) + TreeOf(c, s, mid, end);
    }
  }

  lemma NothingShown(c: Context, s: seq<ListItem>, i: nat)
    requires i <= |s|
    ensures TreeOf(c, s, i, i) == []
  {
    hide Ready;
  }

  lemma TreeStep(c: Context, s: seq<ListItem>, i: nat, end: nat)
    requires i < end <= |s|
    ensures var next := DeeperEnd(s, i + 1, end, s[i].depth);
      TreeOf(c, s, i, end)
        == [Shown(c, s[i], s[next - 1].range.end, TreeOf(c, s, i + 1, next))] + TreeOf(c, s, next, end)
  {
    hide Ready, Shown, DeeperEnd;
  }

  // ---------------------------------------------------------------- the forest

  /** Where the items of a list, the lists below an item and a list end. */
  lemma {:induction false} ItemsEndAt(s: seq<ListItem>, depth: nat, kind: ListKind, c: nat)
    requires InOrder(s) && c <= |s|
    ensures var next := Items(s, depth, kind, c).1;
      && (forall j :: c <= j < next ==> depth <= s[j].depth)
      && (c < next < |s| ==> s[next].depth <= depth)
    decreases |s| - c, 0
  {
    hide Children, InOrder, Bounds;
    if Here(s, depth, kind, c) {
      var next := Children(s, depth, c + 1).1;
      ChildrenEndAt(s, depth, c + 1);
      ItemsEndAt(s, depth, kind, next);
    }
  }

  lemma {:induction false} ChildrenEndAt(s: seq<ListItem>, depth: nat, c: nat)
    requires InOrder(s) && c <= |s|
    ensures var next := Children(s, depth, c).1;
      && (forall j :: c <= j < next ==> depth < s[j].depth)
      && (next < |s| ==> s[next].depth <= depth)
    decreases |s| - c, 1
  {
    hide Items, InOrder, Bounds;
    if c < |s| && s[c].depth > depth {
      ItemsEndAt(s, s[c].depth, s[c].kind, c);
      ChildrenEndAt(s, depth, BuiltList(s, c).1);
    }
  }

  lemma ChildrenAreDeeper(s: seq<ListItem>, depth: nat, c: nat, end: nat)
    requires InOrder(s) && c <= end <= |s| && Children(s, depth, c).1 <= end
    ensures Children(s, depth, c).1 == DeeperEnd(s, c, end, depth)
  {
    hide Children;
    ChildrenEndAt(s, depth, c);
  }

  /** The nodes of a list are the tree of its items. */
  lemma {:induction false} ItemsAreTree(c: Context, s: seq<ListItem>, depth: nat, kind: ListKind, at: nat)
    requires InOrder(s) && at <= |s|
    ensures var r := Items(s, depth, kind, at); ItemsNodes(c, r.0) == TreeOf(c, s, at, r.1)
    decreases |s| - at, 0
  {
    hide Ready, Items, Children, InOrder, Bounds, ItemsNodes, TreeOf, Shown, DeeperEnd, ItemNode;
    if Here(s, depth, kind, at) {
      var (children, next) := Children(s, depth, at + 1);
      ItemsStep(s, depth, kind, at, []);
      ChildrenAreTree(c, s, depth, at + 1);
      ItemsAreTree(c, s, depth, kind, next);
      var (rest, last) := Items(s, depth, kind, next);
      ChildrenAreDeeper(s, depth, at + 1, last);
      TreeStep(c, s, at, last);
      ChildrenStop(s, depth, at);
      ItemShows(c, s, at, children, next);
      ItemsNodesStep(c, MakeItem(s[at], children), rest);
    } else {
      ItemsEnd(s, depth, kind, at);
      NothingShown(c, s, at);
      NoNodes(c);
    }
  }

  /** The lists below an item end with the last item in them. */
  lemma ChildrenStop(s: seq<ListItem>, depth: nat, at: nat)
    requires InOrder(s) && at < |s|
    ensures var (children, next) := Children(s, depth, at + 1);
      if children == [] then next == at + 1
      else children[|children| - 1].range.end == s[next - 1].range.end && s[at].range.start <= s[next - 1].range.end
  {
    hide Children;
  }

  lemma NoNodes(c: Context)
    ensures ItemsNodes(c, []) == [] && ListsNodes(c, []) == []
  {
    hide Ready;
  }

  lemma ItemsNodesStep(c: Context, item: Item<ItemText>, rest: seq<Item<ItemText>>)
    ensures ItemsNodes(c, [item] + rest)
      == [ItemNode(c, item.flat.content, item.range, ListsNodes(c, item.children))] + ItemsNodes(c, rest)
  {
    hide Ready, ItemNode;
    assert ([item] + rest)[1..] == rest;
  }

  lemma ListsNodesStep(c: Context, l: ListBlock<ItemText>, rest: seq<ListBlock<ItemText>>)
    ensures ListsNodes(c, [l] + rest) == ItemsNodes(c, l.items) + ListsNodes(c, rest)
  {
    hide Ready, ItemsNodes;
    assert ([l] + rest)[1..] == rest;
  }

  /** The node of an item with its child lists. */
  lemma ItemShows(c: Context, s: seq<ListItem>, at: nat, children: seq<ListBlock<ItemText>>, next: nat)
    requires at < next <= |s|
    requires if children == [] then next == at + 1
      else children[|children| - 1].range.end == s[next - 1].range.end && s[at].range.start <= s[next - 1].range.end
    ensures children != [] ==> s[at].range.start <= children[|children| - 1].range.end
    ensures var item := MakeItem(s[at], children);
      ItemNode(c, s[at].content, item.range, ListsNodes(c, children))
        == Shown(c, s[at], s[next - 1].range.end, ListsNodes(c, children))
  {
    hide Ready, ListsNodes, PlainNodes, BrokenNodes, TermNodes, TermsShown;
    TermsAreShown(c, s[at].content.terms);
  }

  lemma {:induction false} ChildrenAreTree(c: Context, s: seq<ListItem>, depth: nat, at: nat)
    requires InOrder(s) && at <= |s|
    ensures var r := Children(s, depth, at); ListsNodes(c, r.0) == TreeOf(c, s, at, r.1)
    decreases |s| - at, 1
  {
    hide Ready, Items, Children, InOrder, Bounds, ListsNodes, ItemsNodes, TreeOf;
    if at < |s| && s[at].depth > depth {
      var (l, next) := BuiltList(s, at);
      ChildrenStep(s, depth, at, []);
      ItemsAreTree(c, s, s[at].depth, s[at].kind, at);
      ChildrenAreTree(c, s, depth, next);
      var (rest, last) := Children(s, depth, next);
      ListsNodesStep(c, l, rest);
      ItemsEndAt(s, s[at].depth, s[at].kind, at);
      TreeSplits(c, s, at, next, last);
    } else {
      ChildrenEnd(s, depth, at);
      NothingShown(c, s, at);
      NoNodes(c);
    }
  }

  /** The nodes of all lists are the tree of the items, however the items are grouped into lists. */
  lemma {:induction false} ForestIsTree(c: Context, s: seq<ListItem>, at: nat)
    requires InOrder(s) && at <= |s|
    ensures ListsNodes(c, Forest(s, at)) == TreeOf(c, s, at, |s|)
    decreases |s| - at
  {
    hide Ready, Items, InOrder, Bounds, ListsNodes, ItemsNodes, TreeOf;
    if at < |s| {
      var (l, next) := BuiltList(s, at);
      ItemsAreTree(c, s, s[at].depth, s[at].kind, at);
      ForestIsTree(c, s, next);
      ListsNodesStep(c, l, Forest(s, next));
      ItemsEndAt(s, s[at].depth, s[at].kind, at);
      TreeSplits(c, s, at, next, |s|);
    } else {
      NothingShown(c, s, at);
      NoNodes(c);
    }
  }
}
