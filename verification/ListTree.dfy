/** Construction of nested lists from the flat sequence of their items. */
module ListTree {
  import opened Text

  datatype ListKind = Unordered | Ordered | Description | Callout

  /** One item as it was read, with the depth its marker gave it. */
  datatype Flat<T> = Flat(depth: nat, kind: ListKind, range: TextRange, content: T)

  datatype ListBlock<T> = ListBlock(kind: ListKind, range: TextRange, items: seq<Item<T>>)

  datatype Item<T> = Item(flat: Flat<T>, range: TextRange, children: seq<ListBlock<T>>)

  /** Items follow each other in the source. */
  ghost predicate InOrder<T>(s: seq<Flat<T>>) {
    forall i, j :: 0 <= i < j < |s| ==> s[i].range.end <= s[j].range.start
  }

  /** `[start, stop)` is what the flat items `[c, end)` span. */
  ghost predicate Bounds<T>(s: seq<Flat<T>>, start: nat, stop: nat, c: nat, end: nat)
    requires end <= |s|
  {
    c < end && start == s[c].range.start && stop == s[end - 1].range.end && start <= stop
  }

  predicate Here<T>(s: seq<Flat<T>>, depth: nat, kind: ListKind, c: nat) {
    c < |s| && s[c].depth == depth && s[c].kind == kind
  }

  function MakeItem<T>(f: Flat<T>, children: seq<ListBlock<T>>): Item<T>
    requires children != [] ==> f.range.start <= children[|children| - 1].range.end
  {
    Item(f, Range(f.range.start, if children == [] then f.range.end else children[|children| - 1].range.end), children)
  }

  /** The items of one list that start at `c`: those of the given depth and kind, each with
      the deeper lists that follow it. Also where the list ends. */
  function Items<T>(s: seq<Flat<T>>, depth: nat, kind: ListKind, c: nat): (r: (seq<Item<T>>, nat))
    requires InOrder(s) && c <= |s|
    ensures c <= r.1 <= |s| && (r.0 == [] ==> r.1 == c) && (Here(s, depth, kind, c) ==> r.0 != [])
    ensures r.0 != [] ==> Bounds(s, r.0[0].range.start, r.0[|r.0| - 1].range.end, c, r.1)
    decreases |s| - c, 0
  {
    if Here(s, depth, kind, c) then
      var (children, next) := Children(s, depth, c + 1);
      var (rest, last) := Items(s, depth, kind, next);
      ([MakeItem(s[c], children)] + rest, last)
    else ([], c)
  }

  /** The lists deeper than `depth` that start at `c`. */
  function Children<T>(s: seq<Flat<T>>, depth: nat, c: nat): (r: (seq<ListBlock<T>>, nat))
    requires InOrder(s) && c <= |s|
    ensures c <= r.1 <= |s| && (r.0 == [] ==> r.1 == c)
    ensures r.0 != [] ==> Bounds(s, r.0[0].range.start, r.0[|r.0| - 1].range.end, c, r.1)
    decreases |s| - c, 2
  {
    if c < |s| && s[c].depth > depth then
      var (l, next) := BuiltList(s, c);
      var (rest, last) := Children(s, depth, next);
      ([l] + rest, last)
    else ([], c)
  }

  /** The list whose first item is at `c`, and where it ends. */
  function BuiltList<T>(s: seq<Flat<T>>, c: nat): (r: (ListBlock<T>, nat))
    requires InOrder(s) && c < |s|
    ensures c < r.1 <= |s| && Bounds(s, r.0.range.start, r.0.range.end, c, r.1)
    decreases |s| - c, 1
  {
    var (items, next) := Items(s, s[c].depth, s[c].kind, c);
    (ListBlock(s[c].kind, Range(items[0].range.start, items[|items| - 1].range.end), items), next)
  }

  /** Every list of a run of items. */
  function Forest<T>(s: seq<Flat<T>>, c: nat): seq<ListBlock<T>>
    requires InOrder(s) && c <= |s|
    decreases |s| - c
  {
    if c == |s| then [] else [BuiltList(s, c).0] + Forest(s, BuiltList(s, c).1)
  }

  // ---------------------------------------------------------------- one step of each loop

  lemma ItemsStep<T>(s: seq<Flat<T>>, depth: nat, kind: ListKind, c: nat, done: seq<Item<T>>)
    requires InOrder(s) && Here(s, depth, kind, c)
    ensures var (children, next) := Children(s, depth, c + 1);
      && (children != [] ==> s[c].range.start <= children[|children| - 1].range.end)
      && Items(s, depth, kind, c).1 == Items(s, depth, kind, next).1
      && Items(s, depth, kind, c).0 == [MakeItem(s[c], children)] + Items(s, depth, kind, next).0
      && done + Items(s, depth, kind, c).0 == done + [MakeItem(s[c], children)] + Items(s, depth, kind, next).0
  {
    var (children, next) := Children(s, depth, c + 1);
    var item, rest := MakeItem(s[c], children), Items(s, depth, kind, next).0;
    assert done + ([item] + rest) == done + [item] + rest;
  }

  lemma ItemsEnd<T>(s: seq<Flat<T>>, depth: nat, kind: ListKind, c: nat)
    requires InOrder(s) && c <= |s| && !Here(s, depth, kind, c)
    ensures Items(s, depth, kind, c) == ([], c)
  {
  }

  lemma ChildrenStep<T>(s: seq<Flat<T>>, depth: nat, c: nat, done: seq<ListBlock<T>>)
    requires InOrder(s) && c < |s| && s[c].depth > depth
    ensures var (l, next) := BuiltList(s, c);
      && Children(s, depth, c).1 == Children(s, depth, next).1
      && Children(s, depth, c).0 == [l] + Children(s, depth, next).0
      && done + Children(s, depth, c).0 == done + [l] + Children(s, depth, next).0
  {
    var (l, next) := BuiltList(s, c);
    var rest := Children(s, depth, next).0;
    assert done + ([l] + rest) == done + [l] + rest;
  }

  lemma ChildrenEnd<T>(s: seq<Flat<T>>, depth: nat, c: nat)
    requires InOrder(s) && c <= |s| && (c < |s| ==> s[c].depth <= depth)
    ensures Children(s, depth, c) == ([], c)
  {
  }

  /** Two nested loops over a shared cursor build the list that starts at `start`. */
  method BuildTree<T>(s: seq<Flat<T>>, start: nat, depth: nat, kind: ListKind) returns (l: ListBlock<T>, cursor: nat)
    requires InOrder(s) && start < |s| && depth == s[start].depth && kind == s[start].kind
    ensures (l, cursor) == BuiltList(s, start)
    decreases |s| - start
  {
    hide Items, Children, InOrder, MakeItem;
    cursor := start;
    var items: seq<Item<T>> := [];
    while cursor < |s| && s[cursor].depth == depth && s[cursor].kind == kind
      invariant start <= cursor <= |s| && (items == [] ==> cursor == start)
      invariant Items(s, depth, kind, start).0 == items + Items(s, depth, kind, cursor).0
      invariant Items(s, depth, kind, start).1 == Items(s, depth, kind, cursor).1
      decreases |s| - cursor
    {
      var first := cursor;
      ItemsStep(s, depth, kind, first, items);
      var children: seq<ListBlock<T>> := [];
      cursor := cursor + 1;
      while cursor < |s| && s[cursor].depth > depth
        invariant first < cursor <= |s|
        invariant Children(s, depth, first + 1).0 == children + Children(s, depth, cursor).0
        invariant Children(s, depth, first + 1).1 == Children(s, depth, cursor).1
        decreases |s| - cursor
      {
        ChildrenStep(s, depth, cursor, children);
        var child, next := BuildTree(s, cursor, s[cursor].depth, s[cursor].kind);
        children := children + [child];
        cursor := next;
      }
      ChildrenEnd(s, depth, cursor);
      assert children + [] == children;
      items := items + [MakeItem(s[first], children)];
    }
    ItemsEnd(s, depth, kind, cursor);
    assert items + [] == items;
    l := ListBlock(kind, Range(items[0].range.start, items[|items| - 1].range.end), items);
  }

  /** The loop that builds the root lists. */
  method BuildForest<T>(s: seq<Flat<T>>) returns (roots: seq<ListBlock<T>>)
    requires InOrder(s)
    ensures roots == Forest(s, 0)
  {
    hide InOrder, BuiltList;
    roots := [];
    var cursor: nat := 0;
    while cursor < |s|
      invariant cursor <= |s| && Forest(s, 0) == roots + Forest(s, cursor)
    {
      var l, next := BuildTree(s, cursor, s[cursor].depth, s[cursor].kind);
      assert roots + ([l] + Forest(s, next)) == roots + [l] + Forest(s, next);
      roots := roots + [l];
      cursor := next;
    }
  }

  // ---------------------------------------------------------------- flattening

  function FlattenLists<T>(ls: seq<ListBlock<T>>): seq<Flat<T>>
    decreases ls
  {
    if ls == [] then [] else FlattenItems(ls[0].items) + FlattenLists(ls[1..])
  }

  /** Items before the items of their child lists, in order. */
  function FlattenItems<T>(items: seq<Item<T>>): seq<Flat<T>>
    decreases items
  {
    if items == [] then [] else [items[0].flat] + FlattenLists(items[0].children) + FlattenItems(items[1..])
  }

  lemma FlattenItem<T>(item: Item<T>, rest: seq<Item<T>>)
    ensures FlattenItems([item] + rest) == [item.flat] + FlattenLists(item.children) + FlattenItems(rest)
  {
    assert ([item] + rest)[1..] == rest;
  }

  lemma FlattenList<T>(l: ListBlock<T>, rest: seq<ListBlock<T>>)
    ensures FlattenLists([l] + rest) == FlattenItems(l.items) + FlattenLists(rest)
  {
    assert ([l] + rest)[1..] == rest;
  }

  lemma {:induction false} ItemsFlatten<T>(s: seq<Flat<T>>, depth: nat, kind: ListKind, c: nat)
    requires InOrder(s) && c <= |s|
    ensures var r := Items(s, depth, kind, c); FlattenItems(r.0) == s[c..r.1]
    decreases |s| - c, 0
  {
    hide Items, Children, InOrder, FlattenItems, FlattenLists, Bounds;
    if Here(s, depth, kind, c) {
      var (children, next) := Children(s, depth, c + 1);
      ItemsStep(s, depth, kind, c, []);
      ChildrenFlatten(s, depth, c + 1);
      ItemsFlatten(s, depth, kind, next);
      var (rest, last) := Items(s, depth, kind, next);
      FlattenItem(MakeItem(s[c], children), rest);
      assert Items(s, depth, kind, c).0 == [MakeItem(s[c], children)] + rest;
      assert s[c..last] == [s[c]] + s[c + 1..next] + s[next..last];
    } else {
      ItemsEnd(s, depth, kind, c);
      assert FlattenItems<T>([]) == [] by { NothingFlattens<T>(); }
    }
  }

  lemma NothingFlattens<T>()
    ensures FlattenItems<T>([]) == [] && FlattenLists<T>([]) == []
  {
  }

  lemma {:induction false} ChildrenFlatten<T>(s: seq<Flat<T>>, depth: nat, c: nat)
    requires InOrder(s) && c <= |s|
    ensures var r := Children(s, depth, c); FlattenLists(r.0) == s[c..r.1]
    decreases |s| - c, 1
  {
    hide Items, Children, InOrder, FlattenItems, FlattenLists, Bounds;
    if c < |s| && s[c].depth > depth {
      var (l, next) := BuiltList(s, c);
      ChildrenStep(s, depth, c, []);
      ItemsFlatten(s, s[c].depth, s[c].kind, c);
      ChildrenFlatten(s, depth, next);
      var (rest, last) := Children(s, depth, next);
      FlattenList(l, rest);
      assert Children(s, depth, c).0 == [l] + rest;
      assert s[c..last] == s[c..next] + s[next..last];
    } else {
      ChildrenEnd(s, depth, c);
      NothingFlattens<T>();
    }
  }

  /** No item is lost, repeated or reordered. */
  lemma {:induction false} ForestFlattens<T>(s: seq<Flat<T>>, c: nat)
    requires InOrder(s) && c <= |s|
    ensures FlattenLists(Forest(s, c)) == s[c..]
    decreases |s| - c
  {
    hide Items, InOrder, FlattenItems, FlattenLists, Bounds;
    if c < |s| {
      var (l, next) := BuiltList(s, c);
      ItemsFlatten(s, s[c].depth, s[c].kind, c);
      ForestFlattens(s, next);
      FlattenList(l, Forest(s, next));
      assert s[c..] == s[c..next] + s[next..];
    } else {
      NothingFlattens<T>();
    }
  }

  // ---------------------------------------------------------------- shape

  /** Depth of the items of a list. */
  function Depth<T>(l: ListBlock<T>): nat {
    if l.items == [] then 0 else l.items[0].flat.depth
  }

  /** All items of a list share its depth and kind, and the list ends with the last of them. */
  predicate ListOk<T>(l: ListBlock<T>)
    decreases l
  {
    && l.items != [] && ItemsOk(l.items, l.items[0].flat.depth, l.kind)
    && Fits(l.items, l.range.start, l.range.end) && l.range.end == l.items[|l.items| - 1].range.end
  }

  predicate ItemsOk<T>(items: seq<Item<T>>, depth: nat, kind: ListKind)
    decreases items
  {
    items == [] ||
    (&& items[0].flat.depth == depth && items[0].flat.kind == kind
     && ListsOk(items[0].children, depth)
     && ItemsOk(items[1..], depth, kind))
  }

  /** Lists deeper than the item they belong to; neighbours differ in depth or kind. */
  predicate ListsOk<T>(ls: seq<ListBlock<T>>, above: nat)
    decreases ls
  {
    ls == [] ||
    (&& ListOk(ls[0]) && above < Depth(ls[0])
     && ListsOk(ls[1..], above)
     && (|ls| > 1 ==> Depth(ls[0]) != Depth(ls[1]) || ls[0].kind != ls[1].kind))
  }

  /** Items in order inside `[lo, hi)`, each spanning its own text and its child lists. */
  predicate Fits<T>(items: seq<Item<T>>, lo: nat, hi: nat) {
    if items == [] then lo <= hi
    else
      && lo <= items[0].range.start == items[0].flat.range.start
      && items[0].range.end == EndOf(items[0])
      && ListsFit(items[0].children, items[0].flat.range.end, items[0].range.end)
      && Fits(items[1..], items[0].range.end, hi)
  }

  /** Where the text of an item and of its child lists ends. */
  function EndOf<T>(item: Item<T>): nat {
    if item.children == [] then item.flat.range.end else item.children[|item.children| - 1].range.end
  }

  predicate ListsFit<T>(ls: seq<ListBlock<T>>, lo: nat, hi: nat) {
    if ls == [] then lo <= hi
    else lo <= ls[0].range.start && ListsFit(ls[1..], ls[0].range.end, hi)
  }

  lemma {:induction false} ItemsFit<T>(s: seq<Flat<T>>, depth: nat, kind: ListKind, c: nat, lo: nat)
    requires InOrder(s) && c <= |s| && (c < |s| ==> lo <= s[c].range.start)
    ensures var (items, next) := Items(s, depth, kind, c);
      Fits(items, lo, if items == [] then lo else s[next - 1].range.end)
    decreases |s| - c, 0
  {
    hide Items, Children, Fits, ListsFit;
    if Here(s, depth, kind, c) {
      var (children, next) := Children(s, depth, c + 1);
      ItemsStep(s, depth, kind, c, []);
      ChildrenFit(s, depth, c + 1, s[c].range.end);
      var item := MakeItem(s[c], children);
      ItemsFit(s, depth, kind, next, item.range.end);
      FitsStep(item, Items(s, depth, kind, next).0, lo, s[Items(s, depth, kind, c).1 - 1].range.end);
    } else {
      ItemsEnd(s, depth, kind, c);
      NothingFits<T>(lo);
    }
  }

  lemma FitsStep<T>(item: Item<T>, rest: seq<Item<T>>, lo: nat, hi: nat)
    requires lo <= item.range.start == item.flat.range.start && item.range.end == EndOf(item)
    requires ListsFit(item.children, item.flat.range.end, item.range.end) && Fits(rest, item.range.end, hi)
    ensures Fits([item] + rest, lo, hi)
  {
    assert ([item] + rest)[1..] == rest;
  }

  lemma ListsFitStep<T>(l: ListBlock<T>, rest: seq<ListBlock<T>>, lo: nat, hi: nat)
    requires lo <= l.range.start && ListsFit(rest, l.range.end, hi)
    ensures ListsFit([l] + rest, lo, hi)
  {
    assert ([l] + rest)[1..] == rest;
  }

  lemma NothingFits<T>(lo: nat)
    ensures Fits<T>([], lo, lo) && ListsFit<T>([], lo, lo)
  {
  }

  lemma {:induction false} ChildrenFit<T>(s: seq<Flat<T>>, depth: nat, c: nat, lo: nat)
    requires InOrder(s) && c <= |s| && (c < |s| ==> lo <= s[c].range.start)
    ensures var (ls, next) := Children(s, depth, c);
      ListsFit(ls, lo, if ls == [] then lo else s[next - 1].range.end)
    decreases |s| - c, 1
  {
    hide Children, Fits, ListsFit, BuiltList;
    if c < |s| && s[c].depth > depth {
      var (l, next) := BuiltList(s, c);
      ChildrenStep(s, depth, c, []);
      ChildrenFit(s, depth, next, l.range.end);
      ListsFitStep(l, Children(s, depth, next).0, lo, s[Children(s, depth, c).1 - 1].range.end);
    } else {
      ChildrenEnd(s, depth, c);
      NothingFits<T>(lo);
    }
  }

  /** The root lists follow each other inside the run of items. */
  lemma {:induction false} ForestFits<T>(s: seq<Flat<T>>, c: nat, lo: nat)
    requires InOrder(s) && c <= |s| && (c < |s| ==> lo <= s[c].range.start)
    ensures ListsFit(Forest(s, c), lo, if c == |s| then lo else s[|s| - 1].range.end)
    ensures c < |s| ==> Forest(s, c) != [] && Forest(s, c)[|Forest(s, c)| - 1].range.end == s[|s| - 1].range.end
    decreases |s| - c
  {
    hide Fits, ListsFit, BuiltList;
    if c < |s| {
      var (l, next) := BuiltList(s, c);
      ForestFits(s, next, l.range.end);
      if next == |s| {
        assert Forest(s, next) == [];
        NothingFits<T>(l.range.end);
      }
      ListsFitStep(l, Forest(s, next), lo, s[|s| - 1].range.end);
    } else {
      NothingFits<T>(lo);
    }
  }

  lemma {:induction false} ItemsAreOk<T>(s: seq<Flat<T>>, depth: nat, kind: ListKind, c: nat)
    requires InOrder(s) && c <= |s|
    ensures var (items, next) := Items(s, depth, kind, c);
      ItemsOk(items, depth, kind) && !Here(s, depth, kind, next)
    decreases |s| - c, 0
  {
    hide Items, Children, InOrder, Bounds, ListsOk, ItemsOk;
    if Here(s, depth, kind, c) {
      var (children, next) := Children(s, depth, c + 1);
      ItemsStep(s, depth, kind, c, []);
      ChildrenAreOk(s, depth, c + 1);
      ItemsAreOk(s, depth, kind, next);
      ItemsOkStep(MakeItem(s[c], children), Items(s, depth, kind, next).0, depth, kind);
    } else {
      ItemsEnd(s, depth, kind, c);
      NothingIsOk<T>(depth, kind);
    }
  }

  lemma NothingIsOk<T>(depth: nat, kind: ListKind)
    ensures ItemsOk<T>([], depth, kind) && ListsOk<T>([], depth)
  {
  }

  lemma ItemsOkStep<T>(item: Item<T>, rest: seq<Item<T>>, depth: nat, kind: ListKind)
    requires item.flat.depth == depth && item.flat.kind == kind && ListsOk(item.children, depth)
      && ItemsOk(rest, depth, kind)
    ensures ItemsOk([item] + rest, depth, kind)
  {
    assert ([item] + rest)[1..] == rest;
  }

  lemma ListsOkStep<T>(l: ListBlock<T>, rest: seq<ListBlock<T>>, above: nat)
    requires ListOk(l) && above < Depth(l) && ListsOk(rest, above)
    requires rest != [] ==> Depth(l) != Depth(rest[0]) || l.kind != rest[0].kind
    ensures ListsOk([l] + rest, above)
  {
    assert ([l] + rest)[1..] == rest;
  }

  lemma ListOkIntro<T>(kind: ListKind, range: TextRange, item: Item<T>, rest: seq<Item<T>>)
    requires ItemsOk([item] + rest, item.flat.depth, kind) && Fits([item] + rest, range.start, range.end)
    requires range.end == ([item] + rest)[|rest|].range.end
    ensures ListOk(ListBlock(kind, range, [item] + rest))
      && Depth(ListBlock(kind, range, [item] + rest)) == item.flat.depth
  {
    hide ItemsOk, Fits;
  }

  lemma BuiltListParts<T>(s: seq<Flat<T>>, c: nat)
    requires InOrder(s) && c < |s|
    ensures var (items, next) := Items(s, s[c].depth, s[c].kind, c);
      && c < next && s[c].range.start <= s[next - 1].range.end
      && items != [] && items[|items| - 1].range.end == s[next - 1].range.end
      && BuiltList(s, c) == (ListBlock(s[c].kind, Range(s[c].range.start, s[next - 1].range.end), items), next)
  {
    hide Items, InOrder;
  }

  lemma BuiltListIsOk<T>(s: seq<Flat<T>>, c: nat)
    requires InOrder(s) && c < |s|
    ensures var (l, next) := BuiltList(s, c);
      ListOk(l) && Depth(l) == s[c].depth && l.kind == s[c].kind && !Here(s, s[c].depth, s[c].kind, next)
    decreases |s| - c, 1
  {
    hide Items, Children, BuiltList, InOrder, ItemsOk, Fits, ListOk, Depth, Bounds;
    BuiltListParts(s, c);
    var (items, last) := Items(s, s[c].depth, s[c].kind, c);
    var (children, next) := Children(s, s[c].depth, c + 1);
    ItemsAreOk(s, s[c].depth, s[c].kind, c);
    ItemsFit(s, s[c].depth, s[c].kind, c, s[c].range.start);
    ItemsStep(s, s[c].depth, s[c].kind, c, []);
    ListOkIntro(s[c].kind, Range(s[c].range.start, s[last - 1].range.end), MakeItem(s[c], children),
      Items(s, s[c].depth, s[c].kind, next).0);
  }

  lemma {:induction false} ChildrenAreOk<T>(s: seq<Flat<T>>, depth: nat, c: nat)
    requires InOrder(s) && c <= |s|
    ensures var (ls, next) := Children(s, depth, c);
      && ListsOk(ls, depth)
      && (ls != [] ==> c < |s| && Depth(ls[0]) == s[c].depth && ls[0].kind == s[c].kind)
      && (next < |s| ==> s[next].depth <= depth)
    decreases |s| - c, 2
  {
    hide Children, InOrder, BuiltList, ListsOk, ListOk, Bounds;
    if c < |s| && s[c].depth > depth {
      var (l, next) := BuiltList(s, c);
      ChildrenStep(s, depth, c, []);
      BuiltListIsOk(s, c);
      ChildrenAreOk(s, depth, next);
      ListsOkStep(l, Children(s, depth, next).0, depth);
      assert Children(s, depth, c).0[0] == l;
    } else {
      ChildrenEnd(s, depth, c);
      NothingIsOk<T>(depth, Unordered);
    }
  }

  /** Levels of nesting below and including a list. */
  function Height<T>(ls: seq<ListBlock<T>>): nat
    decreases ls
  {
    if ls == [] then 0 else Max(1 + ItemsHeight(ls[0].items), Height(ls[1..]))
  }

  function ItemsHeight<T>(items: seq<Item<T>>): nat
    decreases items
  {
    if items == [] then 0 else Max(Height(items[0].children), ItemsHeight(items[1..]))
  }

  ghost predicate NoDeeper<T>(s: seq<Flat<T>>, limit: nat) {
    forall i :: 0 <= i < |s| ==> s[i].depth <= limit
  }

  lemma NoDeeperParts<T>(a: seq<Flat<T>>, b: seq<Flat<T>>, limit: nat)
    requires NoDeeper(a + b, limit)
    ensures NoDeeper(a, limit) && NoDeeper(b, limit)
  {
    assert forall i :: 0 <= i < |a| ==> a[i] == (a + b)[i];
    assert forall i :: 0 <= i < |b| ==> b[i] == (a + b)[|a| + i];
  }

  lemma {:induction false} HeightBound<T>(ls: seq<ListBlock<T>>, above: nat, limit: nat)
    requires ListsOk(ls, above) && above <= limit && NoDeeper(FlattenLists(ls), limit)
    ensures Height(ls) <= limit - above
    decreases ls
  {
    hide NoDeeper, Fits, FlattenItems, ItemsOk;
    if ls != [] {
      var l := ls[0];
      NoDeeperParts(FlattenItems(l.items), FlattenLists(ls[1..]), limit);
      FirstIsNoDeeper(l.items, limit);
      ItemsHeightBound(l.items, Depth(l), l.kind, limit);
      HeightBound(ls[1..], above, limit);
    }
  }

  lemma FirstIsNoDeeper<T>(items: seq<Item<T>>, limit: nat)
    requires items != [] && NoDeeper(FlattenItems(items), limit)
    ensures items[0].flat.depth <= limit
  {
    assert FlattenItems(items)[0] == items[0].flat;
  }

  lemma {:induction false} ItemsHeightBound<T>(items: seq<Item<T>>, depth: nat, kind: ListKind, limit: nat)
    requires ItemsOk(items, depth, kind) && depth <= limit && NoDeeper(FlattenItems(items), limit)
    ensures ItemsHeight(items) <= limit - depth
    decreases items
  {
    hide NoDeeper, Fits, FlattenLists, ListsOk;
    if items != [] {
      NoDeeperParts([items[0].flat] + FlattenLists(items[0].children), FlattenItems(items[1..]), limit);
      NoDeeperParts([items[0].flat], FlattenLists(items[0].children), limit);
      HeightBound(items[0].children, depth, limit);
      ItemsHeightBound(items[1..], depth, kind, limit);
    }
  }

  /** The forest of any run of items with positive depths is well shaped: depths increase
      along every path, neighbouring lists differ in depth or kind, and ranges nest. */
  lemma {:induction false} ForestShape<T>(s: seq<Flat<T>>, c: nat)
    requires InOrder(s) && c <= |s| && forall i :: 0 <= i < |s| ==> 1 <= s[i].depth
    ensures ListsOk(Forest(s, c), 0)
    ensures Forest(s, c) != [] ==> c < |s| && Depth(Forest(s, c)[0]) == s[c].depth && Forest(s, c)[0].kind == s[c].kind
    decreases |s| - c
  {
    hide InOrder, BuiltList, ListsOk, ListOk, Bounds;
    if c < |s| {
      var (l, next) := BuiltList(s, c);
      BuiltListIsOk(s, c);
      ForestShape(s, next);
      ListsOkStep(l, Forest(s, next), 0);
    } else {
      NothingIsOk<T>(0, Unordered);
    }
  }

  /** When depths lie between 1 and the limit, as the parser clamps them, nesting is no
      deeper than the limit. */
  lemma ForestHeight<T>(s: seq<Flat<T>>, limit: nat)
    requires InOrder(s) && forall i :: 0 <= i < |s| ==> 1 <= s[i].depth <= limit
    ensures Height(Forest(s, 0)) <= limit
  {
    ForestShape(s, 0);
    ForestFlattens(s, 0);
    assert s[0..] == s;
    HeightBound(Forest(s, 0), 0, limit);
  }
}
