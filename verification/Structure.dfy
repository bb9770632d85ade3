/** Sections of a document: a flat run of headings becomes a forest through a level stack. */
module Structure {
  import opened Text

  datatype SectionKind = DocumentTitle | Part | Chapter | Appendix | Discrete

  datatype RawHeading = Heading(kind: SectionKind, level: nat, range: TextRange)

  /** Titles and parts are at level 0. */
  type Heading = h: RawHeading | h.kind.DocumentTitle? || h.kind.Part? ==> h.level == 0
    witness Heading(DocumentTitle, 0, Range(0, 0))

  datatype Section = Section(heading: Heading, children: seq<Section>)

  /** The level at which a heading takes part in nesting. */
  function Rank(h: Heading): nat {
    if h.kind.DocumentTitle? then 0 else h.level
  }

  function Nested(s: seq<Heading>): (r: seq<Heading>)
    ensures forall i :: 0 <= i < |r| ==> !r[i].kind.Discrete?
  {
    if s == [] then [] else (if s[0].kind.Discrete? then [] else [s[0]]) + Nested(s[1..])
  }

  // ---------------------------------------------------------------- parents

  /** The nearest of the first `j` headings whose rank is below `rank`; -1 when there is none. */
  function NearestBelow(s: seq<Heading>, j: nat, rank: nat): (r: int)
    requires j <= |s|
    ensures -1 <= r < j
  {
    if j == 0 then -1 else if Rank(s[j - 1]) < rank then j - 1 else NearestBelow(s, j - 1, rank)
  }

  lemma {:induction false} NearestBelowIsNearest(s: seq<Heading>, j: nat, rank: nat)
    requires j <= |s|
    ensures var r := NearestBelow(s, j, rank);
      && (0 <= r ==> Rank(s[r]) < rank)
      && forall k :: r < k < j ==> rank <= Rank(s[k])
  {
    if j > 0 && rank <= Rank(s[j - 1]) {
      NearestBelowIsNearest(s, j - 1, rank);
    }
  }

  function LatestTitle(s: seq<Heading>, j: nat): (r: int)
    requires j <= |s|
    ensures -1 <= r < j && (0 <= r ==> s[r].kind.DocumentTitle?)
  {
    if j == 0 then -1 else if s[j - 1].kind.DocumentTitle? then j - 1 else LatestTitle(s, j - 1)
  }

  function Or(a: int, b: int): int { if a == -1 then b else a }

  /** The parent of the heading at `i`; -1 for a root. A title is a root, a part belongs to the
      latest title, and any other heading to the nearest one above it of smaller rank, or else
      to the latest title. */
  function ParentOf(s: seq<Heading>, i: nat): (r: int)
    requires i < |s|
    ensures -1 <= r < i
  {
    match s[i].kind
    case DocumentTitle => -1
    case Part => LatestTitle(s, i)
    case _ => Or(NearestBelow(s, i, s[i].level), LatestTitle(s, i))
  }

  /** The headings of `[j, e)` whose parent is `i`, in order. */
  function Children(s: seq<Heading>, i: int, j: nat, e: nat): (r: seq<nat>)
    requires j <= e <= |s|
    ensures forall c :: c in r ==> j <= c < e && i < c && ParentOf(s, c) == i
    decreases e - j
  {
    if j == e then [] else (if ParentOf(s, j) == i then [j] else []) + Children(s, i, j + 1, e)
  }

  function Materialized(s: seq<Heading>, i: nat): Section
    requires i < |s|
    decreases |s| - i, 0
  {
    Section(s[i], MaterializedAll(s, i, Children(s, i, i + 1, |s|)))
  }

  function MaterializedAll(s: seq<Heading>, i: int, kids: seq<nat>): (r: seq<Section>)
    requires -1 <= i < |s| && forall c :: c in kids ==> i < c < |s|
    ensures |r| == |kids|
    decreases |s| - i, 0, |kids|
  {
    if kids == [] then []
    else
      assert kids[0] in kids && forall c :: c in kids[1..] ==> c in kids;
      [Materialized(s, kids[0])] + MaterializedAll(s, i, kids[1..])
  }

  function Forest(s: seq<Heading>): seq<Section> {
    MaterializedAll(s, -1, Children(s, -1, 0, |s|))
  }

  // ---------------------------------------------------------------- the level stack

  datatype Entry = Entry(level: nat, index: nat)

  /** The index of the topmost entry of a level below `rank`; -1 when there is none. */
  function TopBelow(stack: seq<Entry>, rank: nat): int {
    if stack == [] then -1
    else
      var top := stack[|stack| - 1];
      if top.level < rank then top.index else TopBelow(stack[..|stack| - 1], rank)
  }

  /** For every rank, the stack and the latest title answer as a backward search would. */
  ghost predicate StackOk(s: seq<Heading>, n: nat, stack: seq<Entry>, title: int)
    requires n <= |s|
  {
    && title == LatestTitle(s, n)
    && forall rank: nat :: Or(TopBelow(stack, rank), title) == Or(NearestBelow(s, n, rank), LatestTitle(s, n))
  }

  lemma PushKeeps(s: seq<Heading>, n: nat, stack: seq<Entry>, popped: seq<Entry>, title: int)
    requires n < |s| && StackOk(s, n, stack, title) && !s[n].kind.DocumentTitle? && !s[n].kind.Part?
    requires forall rank: nat :: rank <= s[n].level ==> TopBelow(popped, rank) == TopBelow(stack, rank)
    ensures StackOk(s, n + 1, popped + [Entry(s[n].level, n)], title)
  {
    var pushed := popped + [Entry(s[n].level, n)];
    assert pushed[..|pushed| - 1] == popped;
    forall rank: nat | true
      ensures Or(TopBelow(pushed, rank), title) == Or(NearestBelow(s, n + 1, rank), LatestTitle(s, n + 1))
    {
      if rank <= s[n].level {
        assert TopBelow(popped, rank) == TopBelow(stack, rank);
      }
    }
  }

  lemma {:induction false} NothingBelowZero(s: seq<Heading>, n: nat)
    requires n <= |s|
    ensures NearestBelow(s, n, 0) == -1
  {
    if n > 0 {
      NothingBelowZero(s, n - 1);
    }
  }

  lemma ClearKeeps(s: seq<Heading>, n: nat, stack: seq<Entry>, title: int)
    requires n < |s| && StackOk(s, n, stack, title)
    ensures s[n].kind.DocumentTitle? ==> StackOk(s, n + 1, [], n)
    ensures s[n].kind.Part? ==> StackOk(s, n + 1, [Entry(0, n)], title)
  {
    var pushed := [Entry(0, n)];
    assert pushed[..0] == [];
    if s[n].kind.Part? {
      forall rank: nat | true
        ensures Or(TopBelow(pushed, rank), title) == Or(NearestBelow(s, n + 1, rank), LatestTitle(s, n + 1))
      {
        if rank == 0 {
          NothingBelowZero(s, n + 1);
        }
      }
    } else if s[n].kind.DocumentTitle? {
      forall rank: nat | true
        ensures Or(TopBelow([], rank), n) == Or(NearestBelow(s, n + 1, rank), LatestTitle(s, n + 1))
      {
        if rank == 0 {
          NothingBelowZero(s, n + 1);
        }
      }
    }
  }

  datatype ArenaSection = ArenaSection(heading: Heading, parent: int, children: seq<nat>)

  /** The arena after `n` headings: each knows its parent and its children so far. */
  ghost predicate ArenaOk(s: seq<Heading>, n: nat, arena: seq<ArenaSection>)
    requires n <= |s|
  {
    && |arena| == n
    && forall i :: 0 <= i < n ==>
         arena[i].heading == s[i] && arena[i].parent == ParentOf(s, i) && arena[i].children == Children(s, i, i + 1, n)
  }

  lemma {:induction false} ChildrenGrow(s: seq<Heading>, i: int, j: nat, n: nat)
    requires j <= n < |s|
    ensures Children(s, i, j, n + 1) == Children(s, i, j, n) + if ParentOf(s, n) == i then [n] else []
    decreases n - j
  {
    hide ParentOf;
    if j < n {
      ChildrenGrow(s, i, j + 1, n);
    }
  }

  lemma ArenaGrows(s: seq<Heading>, n: nat, arena: seq<ArenaSection>, grown: seq<ArenaSection>)
    requires n < |s| && ArenaOk(s, n, arena) && |grown| == n + 1
    requires grown[n] == ArenaSection(s[n], ParentOf(s, n), [])
    requires forall i :: 0 <= i < n ==>
      grown[i] == if ParentOf(s, n) == i then arena[i].(children := arena[i].children + [n]) else arena[i]
    ensures ArenaOk(s, n + 1, grown)
  {
    hide ParentOf, Children;
    forall i | 0 <= i < n ensures grown[i].children == Children(s, i, i + 1, n + 1) {
      ChildrenGrow(s, i, i + 1, n);
    }
    NoChildren(s, n, n + 1);
  }

  lemma NoChildren(s: seq<Heading>, i: int, j: nat)
    requires j <= |s|
    ensures Children(s, i, j, j) == []
  {
  }

  /** One pass over the headings with a stack of levels. */
  method BuildArena(s: seq<Heading>) returns (arena: seq<ArenaSection>)
    requires forall i :: 0 <= i < |s| ==> !s[i].kind.Discrete?
    ensures ArenaOk(s, |s|, arena)
  {
    hide Children, ParentOf, NearestBelow, LatestTitle;
    arena := [];
    var stack: seq<Entry> := [];
    var title := -1;
    EmptyStack(s);
    for index := 0 to |s|
      invariant ArenaOk(s, index, arena) && StackOk(s, index, stack, title)
    {
      var h := s[index];
      var popped := stack;
      while popped != [] && Rank(h) <= popped[|popped| - 1].level
        invariant forall rank: nat :: rank <= Rank(h) ==> TopBelow(popped, rank) == TopBelow(stack, rank)
      {
        popped := popped[..|popped| - 1];
      }
      var parent := if h.kind.DocumentTitle? then -1
                    else if h.kind.Part? then title
                    else Or(if popped == [] then -1 else popped[|popped| - 1].index, title);
      TopAnswers(s, index, stack, popped, title);
      var grown := arena;
      if parent != -1 {
        grown := grown[parent := grown[parent].(children := grown[parent].children + [index])];
      }
      grown := grown + [ArenaSection(h, parent, [])];
      ArenaGrows(s, index, arena, grown);
      arena := grown;
      ClearKeeps(s, index, stack, title);
      if h.kind.DocumentTitle? {
        stack, title := [], index;
      } else if h.kind.Part? {
        stack := [Entry(0, index)];
      } else {
        PushKeeps(s, index, stack, popped, title);
        stack := popped + [Entry(h.level, index)];
      }
    }
  }

  lemma EmptyStack(s: seq<Heading>)
    ensures StackOk(s, 0, [], -1) && ArenaOk(s, 0, [])
  {
  }

  /** After popping, the top of the stack and the latest title give the parent. */
  lemma TopAnswers(s: seq<Heading>, n: nat, stack: seq<Entry>, popped: seq<Entry>, title: int)
    requires n < |s| && StackOk(s, n, stack, title)
    requires TopBelow(popped, Rank(s[n])) == TopBelow(stack, Rank(s[n]))
    requires popped != [] ==> popped[|popped| - 1].level < Rank(s[n])
    ensures ParentOf(s, n) == if s[n].kind.DocumentTitle? then -1 else if s[n].kind.Part? then title
                              else Or(if popped == [] then -1 else popped[|popped| - 1].index, title)
  {
    hide NearestBelow, LatestTitle;
  }

  /** Sections from their arena, children first. */
  method MaterializeSection(s: seq<Heading>, arena: seq<ArenaSection>, index: nat) returns (r: Section)
    requires ArenaOk(s, |s|, arena) && index < |s|
    ensures r == Materialized(s, index)
    decreases |s| - index
  {
    hide ParentOf, Children;
    var children: seq<Section> := [];
    var kids := arena[index].children;
    assert kids[..0] == [];
    for i := 0 to |kids|
      invariant forall c :: c in kids[..i] ==> index < c < |s|
      invariant children == MaterializedAll(s, index, kids[..i])
    {
      assert kids[i] in kids;
      var child := MaterializeSection(s, arena, kids[i]);
      AllAppend(s, index, kids[..i], kids[i]);
      assert kids[..i] + [kids[i]] == kids[..i + 1];
      children := children + [child];
    }
    assert kids[..|kids|] == kids;
    r := Section(arena[index].heading, children);
  }

  lemma {:induction false} AllAppend(s: seq<Heading>, i: int, kids: seq<nat>, k: nat)
    requires -1 <= i < k < |s| && forall c :: c in kids ==> i < c < |s|
    ensures forall c :: c in kids + [k] ==> i < c < |s|
    ensures MaterializedAll(s, i, kids + [k]) == MaterializedAll(s, i, kids) + [Materialized(s, k)]
    decreases |kids|
  {
    hide Materialized;
    if kids == [] {
      assert [] + [k] == [k] && [k][1..] == [];
    } else {
      assert (kids + [k])[1..] == kids[1..] + [k];
      assert forall c :: c in kids[1..] ==> c in kids;
      AllAppend(s, i, kids[1..], k);
    }
  }

  /** The sections of a document: discrete headings take no part. */
  method Build(all: seq<Heading>) returns (roots: seq<Section>)
    ensures roots == Forest(Nested(all))
  {
    hide Nested, Forest, ArenaOk;
    var s := DropDiscrete(all);
    var arena := BuildArena(s);
    roots := MaterializeRoots(s, arena);
  }

  method DropDiscrete(all: seq<Heading>) returns (s: seq<Heading>)
    ensures s == Nested(all)
  {
    s := [];
    assert all[0..] == all;
    for i := 0 to |all|
      invariant Nested(all) == s + Nested(all[i..])
    {
      NestedStep(all, i, s);
      if !all[i].kind.Discrete? {
        s := s + [all[i]];
      }
    }
  }

  method MaterializeRoots(s: seq<Heading>, arena: seq<ArenaSection>) returns (roots: seq<Section>)
    requires ArenaOk(s, |s|, arena)
    ensures roots == Forest(s)
  {
    hide ParentOf, Children, Materialized;
    roots := [];
    NoChildren(s, -1, 0);
    for index := 0 to |arena|
      invariant roots == MaterializedAll(s, -1, Children(s, -1, 0, index))
    {
      ChildrenGrow(s, -1, 0, index);
      if arena[index].parent == -1 {
        var root := MaterializeSection(s, arena, index);
        AllAppend(s, -1, Children(s, -1, 0, index), index);
        roots := roots + [root];
      } else {
        assert Children(s, -1, 0, index) + [] == Children(s, -1, 0, index);
      }
    }
  }

  lemma NestedStep(all: seq<Heading>, i: nat, done: seq<Heading>)
    requires i < |all|
    ensures done + Nested(all[i..]) == done + (if all[i].kind.Discrete? then [] else [all[i]]) + Nested(all[i + 1..])
  {
    assert all[i..][1..] == all[i + 1..];
    var here := if all[i].kind.Discrete? then [] else [all[i]];
    assert done + (here + Nested(all[i + 1..])) == done + here + Nested(all[i + 1..]);
  }

  // ---------------------------------------------------------------- the forest in preorder

  function Preorder(s: seq<Section>): seq<Heading>
    decreases s
  {
    if s == [] then [] else [s[0].heading] + Preorder(s[0].children) + Preorder(s[1..])
  }

  /** Whether the heading at `j` lies in the subtree of the one at `i`; everything lies under -1. */
  predicate Under(s: seq<Heading>, i: int, j: int)
    requires -1 <= j < |s|
    decreases j + 1
  {
    i == j || (0 <= j && Under(s, i, ParentOf(s, j)))
  }

  /** The parent of a heading is the heading before it or one of its ancestors. */
  lemma {:induction false} ParentIsAbove(s: seq<Heading>, j: nat)
    requires j < |s|
    ensures Under(s, ParentOf(s, j), j - 1)
  {
    match s[j].kind
    case DocumentTitle => UnderRoot(s, j - 1);
    case Part =>
      if LatestTitle(s, j) == -1 { UnderRoot(s, j - 1); } else { TitleIsAbove(s, j); }
    case _ =>
      var near := NearestBelow(s, j, s[j].level);
      if near != -1 {
        NearestIsAbove(s, j, s[j].level);
      } else if LatestTitle(s, j) == -1 {
        UnderRoot(s, j - 1);
      } else {
        TitleIsAbove(s, j);
      }
  }

  lemma {:induction false} UnderRoot(s: seq<Heading>, j: int)
    requires -1 <= j < |s|
    ensures Under(s, -1, j)
    decreases j + 1
  {
    if 0 <= j {
      UnderRoot(s, ParentOf(s, j));
    }
  }

  /** Everything after a title is under the latest title. */
  lemma {:induction false} TitleIsAbove(s: seq<Heading>, j: nat)
    requires 0 < j <= |s| && LatestTitle(s, j) != -1
    ensures Under(s, LatestTitle(s, j), j - 1)
  {
    hide NearestBelow;
    var t, i := LatestTitle(s, j), j - 1;
    if t < i {
      var p := ParentOf(s, i);
      LatestAgain(s, i, j);
      if p != t {
        NearestAfterTitle(s, i);
        LatestAgain(s, p + 1, j);
        TitleIsAbove(s, p + 1);
      }
    }
  }

  lemma {:induction false} LatestAgain(s: seq<Heading>, i: nat, j: nat)
    requires i <= j <= |s| && LatestTitle(s, j) < i
    ensures LatestTitle(s, i) == LatestTitle(s, j)
    decreases j
  {
    if i < j {
      LatestAgain(s, i, j - 1);
    }
  }

  /** A title is below every positive rank. */
  lemma {:induction false} NearestReachesTitle(s: seq<Heading>, i: nat, rank: nat)
    requires i <= |s| && 0 < rank
    ensures LatestTitle(s, i) <= NearestBelow(s, i, rank)
  {
    if 0 < i && rank <= Rank(s[i - 1]) {
      NearestReachesTitle(s, i - 1, rank);
    }
  }

  /** After a title, the parent of a heading that is no title is at or after it. */
  lemma NearestAfterTitle(s: seq<Heading>, i: nat)
    requires i < |s| && LatestTitle(s, i) != -1 && !s[i].kind.DocumentTitle?
    ensures LatestTitle(s, i) <= ParentOf(s, i)
  {
    hide NearestBelow, LatestTitle;
    if s[i].level == 0 {
      NothingBelowZero(s, i);
    } else {
      NearestReachesTitle(s, i, s[i].level);
    }
  }

  /** The nearest heading of smaller rank is an ancestor of the last one before. */
  lemma {:induction false} NearestIsAbove(s: seq<Heading>, j: nat, rank: nat)
    requires j <= |s| && NearestBelow(s, j, rank) != -1
    ensures Under(s, NearestBelow(s, j, rank), j - 1)
    decreases j
  {
    var i, near := j - 1, NearestBelow(s, j, rank);
    if near < i {
      var p := ParentOf(s, i);
      assert rank <= Rank(s[i]) && 0 < rank by { NothingBelowZero(s, j); }
      NearestBelowIsNearest(s, j, rank);
      NearestBelowIsNearest(s, i, s[i].level);
      NearestSame(s, p + 1, j, rank);
      if p != near {
        NearestIsAbove(s, p + 1, rank);
      }
    }
  }

  lemma {:induction false} NearestSame(s: seq<Heading>, i: nat, j: nat, rank: nat)
    requires i <= j <= |s| && NearestBelow(s, j, rank) < i
    ensures NearestBelow(s, i, rank) == NearestBelow(s, j, rank)
    decreases j
  {
    if i < j {
      NearestSame(s, i, j - 1, rank);
    }
  }

  lemma {:induction false} UnderTransitive(s: seq<Heading>, a: int, b: int, c: int)
    requires -1 <= b < |s| && -1 <= c < |s| && Under(s, a, b) && Under(s, b, c)
    ensures Under(s, a, c)
    decreases c + 1
  {
    if b != c {
      UnderTransitive(s, a, b, ParentOf(s, c));
    }
  }

  lemma {:induction false} UnderBelow(s: seq<Heading>, i: int, j: int)
    requires -1 <= j < |s| && Under(s, i, j)
    ensures i <= j
    decreases j + 1
  {
    if i != j {
      UnderBelow(s, i, ParentOf(s, j));
    }
  }

  /** Two ancestors of a heading: the later one is under the earlier one. */
  lemma {:induction false} AncestorsNest(s: seq<Heading>, a: int, b: int, j: int)
    requires -1 <= b < |s| && -1 <= j < |s| && Under(s, a, j) && Under(s, b, j) && a <= b
    ensures Under(s, a, b)
    decreases j + 1
  {
    if b != j {
      if a == j {
        UnderBelow(s, b, j);
      } else {
        AncestorsNest(s, a, b, ParentOf(s, j));
      }
    }
  }

  /** Subtrees are runs: what is under `i` stays under it going back towards `i`. */
  lemma UnderBefore(s: seq<Heading>, i: int, j: nat)
    requires -1 <= i < j < |s| && Under(s, i, j)
    ensures Under(s, i, j - 1)
  {
    ParentIsAbove(s, j);
    UnderTransitive(s, i, ParentOf(s, j), j - 1);
  }

  /** The first heading after `j` that is not under `i`. */
  function EndOf(s: seq<Heading>, i: int, j: nat): (r: nat)
    requires j <= |s|
    ensures j <= r <= |s|
    decreases |s| - j
  {
    if j < |s| && Under(s, i, j) then EndOf(s, i, j + 1) else j
  }

  lemma {:induction false} EndIsEnd(s: seq<Heading>, i: int, j: nat)
    requires -1 <= i < j <= |s|
    ensures var e := EndOf(s, i, j);
      (forall k :: j <= k < e ==> Under(s, i, k)) && (forall k :: e <= k < |s| ==> !Under(s, i, k))
    decreases |s| - j
  {
    if j < |s| {
      if Under(s, i, j) {
        EndIsEnd(s, i, j + 1);
      } else {
        NothingAfter(s, i, j, |s|);
      }
    }
  }

  lemma {:induction false} NothingAfter(s: seq<Heading>, i: int, j: nat, k: nat)
    requires -1 <= i < j < k <= |s| && !Under(s, i, j)
    ensures forall m :: j <= m < k ==> !Under(s, i, m)
    decreases k
  {
    if j + 1 < k {
      NothingAfter(s, i, j, k - 1);
      if Under(s, i, k - 1) {
        UnderBefore(s, i, k - 1);
      }
    }
  }

  /** In the subtree of a child `j` of `i` there is no other child of `i`, and after it comes
      the next child or the end of the subtree of `i`. */
  lemma ChildRun(s: seq<Heading>, i: int, j: nat)
    requires -1 <= i < j < |s| && ParentOf(s, j) == i
    ensures var e := EndOf(s, j, j + 1);
      && (forall k :: j < k < e ==> ParentOf(s, k) != i)
      && (e < |s| && Under(s, i, e) ==> ParentOf(s, e) == i)
  {
    var e := EndOf(s, j, j + 1);
    EndIsEnd(s, j, j + 1);
    forall k | j < k < e ensures ParentOf(s, k) != i {
      assert Under(s, j, k);
      UnderBelow(s, j, ParentOf(s, k));
    }
    if e < |s| && Under(s, i, e) {
      NextChild(s, i, j, e);
    }
  }

  lemma NextChild(s: seq<Heading>, i: int, j: nat, e: nat)
    requires -1 <= i < j < e < |s| && ParentOf(s, j) == i && Under(s, i, e)
    requires !Under(s, j, e) && Under(s, j, e - 1)
    ensures ParentOf(s, e) == i
  {
    var p := ParentOf(s, e);
    ParentIsAbove(s, e);
    UnderBelow(s, i, p);
    if j <= p {
      AncestorsNest(s, j, p, e - 1);
    } else {
      AncestorsNest(s, p, j, e - 1);
      UnderBelow(s, p, i);
    }
  }

  lemma {:induction false} ChildrenSkip(s: seq<Heading>, i: int, j: nat, k: nat, e: nat)
    requires j <= k <= e <= |s| && forall m :: j <= m < k ==> ParentOf(s, m) != i
    ensures Children(s, i, j, e) == Children(s, i, k, e)
    decreases k - j
  {
    hide ParentOf;
    if j < k {
      ChildrenSkip(s, i, j + 1, k, e);
    }
  }

  /** The children of `i` from `j` on, with their subtrees, are the rest of the subtree of `i`. */
  lemma {:induction false} SubtreeIsRun(s: seq<Heading>, i: int, j: nat)
    requires -1 <= i < j <= |s| && (j < |s| && Under(s, i, j) ==> ParentOf(s, j) == i)
    ensures Preorder(MaterializedAll(s, i, Children(s, i, j, |s|))) == s[j..EndOf(s, i, j)]
    decreases |s| - j
  {
    hide ParentOf, Under, EndOf, Children, Preorder, MaterializedAll;
    var e := EndOf(s, i, j);
    EndIsEnd(s, i, j);
    if j == e {
      NoMoreChildren(s, i, j);
    } else {
      var next := EndOf(s, j, j + 1);
      ChildRun(s, i, j);
      FirstChild(s, j);
      SubtreeIsRun(s, j, j + 1);
      SubtreeIsRun(s, i, next);
      SameEnd(s, i, j, next);
      ChildrenSkip(s, i, j + 1, next, |s|);
      PreorderStep(s, i, j, next);
      assert s[j..e] == [s[j]] + s[j + 1..next] + s[next..e];
    }
  }

  lemma PreorderStep(s: seq<Heading>, i: int, j: nat, next: nat)
    requires -1 <= i < j < next <= |s| && ParentOf(s, j) == i && Children(s, i, j + 1, |s|) == Children(s, i, next, |s|)
    ensures Preorder(MaterializedAll(s, i, Children(s, i, j, |s|)))
         == [s[j]] + Preorder(MaterializedAll(s, j, Children(s, j, j + 1, |s|)))
           + Preorder(MaterializedAll(s, i, Children(s, i, next, |s|)))
  {
    hide ParentOf;
    var rest := Children(s, i, next, |s|);
    assert ([j] + rest)[1..] == rest;
    var sections := MaterializedAll(s, i, [j] + rest);
    assert sections[1..] == MaterializedAll(s, i, rest);
  }

  lemma FirstChild(s: seq<Heading>, j: nat)
    requires j < |s|
    ensures j + 1 < |s| && Under(s, j, j + 1) ==> ParentOf(s, j + 1) == j
  {
    if j + 1 < |s| && Under(s, j, j + 1) {
      UnderBelow(s, j, ParentOf(s, j + 1));
    }
  }

  lemma ParentUnder(s: seq<Heading>, k: nat)
    requires k < |s|
    ensures Under(s, ParentOf(s, k), k)
  {
    hide ParentOf;
  }

  lemma NoMoreChildren(s: seq<Heading>, i: int, j: nat)
    requires -1 <= i < j <= |s| && forall k :: j <= k < |s| ==> !Under(s, i, k)
    ensures Children(s, i, j, |s|) == [] && Preorder(MaterializedAll(s, i, [])) == []
  {
    hide ParentOf;
    forall k | j <= k < |s| ensures ParentOf(s, k) != i {
      ParentUnder(s, k);
    }
    ChildrenSkip(s, i, j, |s|, |s|);
  }

  /** The subtree of `i` ends at the same place seen from any heading inside it. */
  lemma SameEnd(s: seq<Heading>, i: int, j: nat, next: nat)
    requires -1 <= i < j < next <= |s| && Under(s, i, j) && next == EndOf(s, j, j + 1)
    ensures next <= EndOf(s, i, j) == EndOf(s, i, next)
  {
    EndIsEnd(s, j, j + 1);
    forall k | j <= k < next ensures Under(s, i, k) {
      if j < k {
        UnderTransitive(s, i, j, k);
      }
    }
    EndReaches(s, i, j, next);
    EndFrom(s, i, j, next);
  }

  lemma {:induction false} EndReaches(s: seq<Heading>, i: int, j: nat, next: nat)
    requires j <= next <= |s| && forall k :: j <= k < next ==> Under(s, i, k)
    ensures next <= EndOf(s, i, j)
    decreases next - j
  {
    if j < next {
      EndReaches(s, i, j + 1, next);
    }
  }

  lemma {:induction false} EndFrom(s: seq<Heading>, i: int, j: nat, next: nat)
    requires j <= next <= |s| && next <= EndOf(s, i, j)
    ensures EndOf(s, i, next) == EndOf(s, i, j)
    decreases next - j
  {
    if j < next {
      EndFrom(s, i, j + 1, next);
    }
  }

  /** The sections in preorder are exactly the headings that are not discrete, in order. */
  lemma ForestIsPreorder(all: seq<Heading>)
    ensures Preorder(Forest(Nested(all))) == Nested(all)
  {
    hide Nested;
    var s := Nested(all);
    forall k | 0 <= k < |s| ensures Under(s, -1, k) {
      UnderRoot(s, k);
    }
    EndReaches(s, -1, 0, |s|);
    SubtreeIsRun(s, -1, 0);
    assert s[0..|s|] == s;
  }

  // ---------------------------------------------------------------- levels grow downward

  /** No section is above its parent's level. */
  predicate LevelsGrow(s: seq<Section>, above: nat)
    decreases s
  {
    s == [] || (above <= s[0].heading.level && LevelsGrow(s[0].children, s[0].heading.level)
      && LevelsGrow(s[1..], above))
  }

  lemma ParentLevel(s: seq<Heading>, i: nat)
    requires i < |s| && ParentOf(s, i) != -1
    ensures s[ParentOf(s, i)].level <= s[i].level
  {
    NearestBelowIsNearest(s, i, s[i].level);
  }

  lemma {:induction false} SubtreeLevels(s: seq<Heading>, i: int, kids: seq<nat>)
    requires -1 <= i < |s| && forall c :: c in kids ==> i < c < |s| && ParentOf(s, c) == i
    ensures LevelsGrow(MaterializedAll(s, i, kids), if i == -1 then 0 else s[i].level)
    decreases |s| - i, |kids|
  {
    hide ParentOf;
    if kids != [] {
      var c := kids[0];
      assert c in kids && forall x :: x in kids[1..] ==> x in kids;
      if i != -1 {
        ParentLevel(s, c);
      }
      SubtreeLevels(s, c, Children(s, c, c + 1, |s|));
      SubtreeLevels(s, i, kids[1..]);
      var all := MaterializedAll(s, i, kids);
      assert all[1..] == MaterializedAll(s, i, kids[1..]);
    }
  }

  /** From a section to its children the level never falls. */
  lemma ForestLevels(all: seq<Heading>)
    ensures LevelsGrow(Forest(Nested(all)), 0)
  {
    hide ParentOf, Nested;
    var s := Nested(all);
    SubtreeLevels(s, -1, Children(s, -1, 0, |s|));
  }

  /** Every section below another one is deeper than it, but for parts, which share the level of
      the title. */
  predicate Deepens(s: seq<Section>, above: int)
    decreases s
  {
    s == [] || ((above < s[0].heading.level || s[0].heading.kind.Part?)
                && Deepens(s[0].children, s[0].heading.level) && Deepens(s[1..], above))
  }

  /** Only titles and parts are at level 0. */
  predicate LevelsStart(s: seq<Heading>) {
    forall i :: 0 <= i < |s| && !s[i].kind.DocumentTitle? && !s[i].kind.Part? ==> 1 <= s[i].level
  }

  lemma ParentIsShallower(s: seq<Heading>, i: nat)
    requires i < |s| && ParentOf(s, i) != -1 && LevelsStart(s)
    ensures s[ParentOf(s, i)].level < s[i].level || s[i].kind.Part?
  {
    NearestBelowIsNearest(s, i, s[i].level);
  }

  lemma {:induction false} SubtreeDeepens(s: seq<Heading>, i: int, kids: seq<nat>)
    requires -1 <= i < |s| && LevelsStart(s) && forall c :: c in kids ==> i < c < |s| && ParentOf(s, c) == i
    ensures Deepens(MaterializedAll(s, i, kids), if i == -1 then -1 else s[i].level)
    decreases |s| - i, |kids|
  {
    hide ParentOf, LevelsStart;
    if kids != [] {
      var c := kids[0];
      assert c in kids && forall x :: x in kids[1..] ==> x in kids;
      if i != -1 {
        ParentIsShallower(s, c);
      }
      SubtreeDeepens(s, c, Children(s, c, c + 1, |s|));
      SubtreeDeepens(s, i, kids[1..]);
      var all := MaterializedAll(s, i, kids);
      assert all[1..] == MaterializedAll(s, i, kids[1..]);
    }
  }

  lemma {:induction false} NestedMembers(all: seq<Heading>)
    ensures forall h :: h in Nested(all) ==> h in all
    decreases |all|
  {
    if all != [] {
      NestedMembers(all[1..]);
    }
  }

  lemma ForestDeepens(all: seq<Heading>)
    requires LevelsStart(all)
    ensures Deepens(Forest(Nested(all)), -1)
  {
    hide ParentOf, Nested;
    var s := Nested(all);
    NestedMembers(all);
    forall i | 0 <= i < |s| && !s[i].kind.DocumentTitle? && !s[i].kind.Part? ensures 1 <= s[i].level {
      assert s[i] in all;
    }
    SubtreeDeepens(s, -1, Children(s, -1, 0, |s|));
  }
}
