/** Section numbers and the table of contents. */
module Presentation {
  import opened Text
  import opened Structure

  // ---------------------------------------------------------------- section counters

  /** One counter for each of the levels 0 to 5. */
  type Counters = c: seq<nat> | |c| == 6 witness [0, 0, 0, 0, 0, 0]

  const ZERO: Counters := [0, 0, 0, 0, 0, 0]

  predicate Counts(h: Heading) { !h.kind.DocumentTitle? && !h.kind.Discrete? }

  function Slot(h: Heading): (r: nat)
    ensures r < 6
  {
    Min(h.level, 5)
  }

  /** Counts one more heading at `slot`: deeper counters start again. */
  function Bumped(c: Counters, slot: nat): Counters
    requires slot < 6
  {
    seq(6, k requires 0 <= k < 6 => if k < slot then c[k] else if k == slot then c[k] + 1 else 0)
  }

  function CountersAfter(s: seq<Heading>, i: nat): Counters
    requires i <= |s|
  {
    if i == 0 then ZERO
    else if Counts(s[i - 1]) then Bumped(CountersAfter(s, i - 1), Slot(s[i - 1]))
    else CountersAfter(s, i - 1)
  }

  function NonZero(c: seq<nat>): seq<nat> {
    if c == [] then [] else (if c[0] == 0 then [] else [c[0]]) + NonZero(c[1..])
  }

  /** The displayed number of a heading: its counters up to its level, without zeros. */
  function NumberOf(s: seq<Heading>, i: nat): seq<nat>
    requires i < |s|
  {
    if Counts(s[i]) then NonZero(CountersAfter(s, i + 1)[..Slot(s[i]) + 1]) else []
  }

  method NumberHeadings(s: seq<Heading>) returns (numbers: seq<seq<nat>>)
    ensures |numbers| == |s| && forall i :: 0 <= i < |s| ==> numbers[i] == NumberOf(s, i)
  {
    hide NonZero;
    var counters := new nat[6](_ => 0);
    assert counters[..] == ZERO;
    numbers := [];
    for i := 0 to |s|
      invariant fresh(counters) && counters[..] == CountersAfter(s, i)
      invariant |numbers| == i && forall k :: 0 <= k < i ==> numbers[k] == NumberOf(s, k)
    {
      if !Counts(s[i]) {
        numbers := numbers + [[]];
        continue;
      }
      ghost var before := counters[..];
      var slot := Slot(s[i]);
      counters[slot] := counters[slot] + 1;
      forall k | slot < k < 6 {
        counters[k] := 0;
      }
      assert counters[..] == Bumped(before, slot);
      var number := SkipZeros(counters[..slot + 1]);
      assert counters[..slot + 1] == counters[..][..slot + 1];
      numbers := numbers + [number];
    }
  }

  method SkipZeros(c: seq<nat>) returns (r: seq<nat>)
    ensures r == NonZero(c)
  {
    r := [];
    assert c[0..] == c;
    for i := 0 to |c|
      invariant NonZero(c) == r + NonZero(c[i..])
    {
      assert c[i..][1..] == c[i + 1..];
      assert r + ([c[i]] + NonZero(c[i + 1..])) == r + [c[i]] + NonZero(c[i + 1..]);
      if c[i] != 0 {
        r := r + [c[i]];
      }
    }
  }

  /** The first counter in which the two differ is smaller in `a`. */
  ghost predicate Below(a: Counters, b: Counters) {
    exists k :: 0 <= k < 6 && a[k] < b[k] && a[..k] == b[..k]
  }

  lemma BelowTransitive(a: Counters, b: Counters, c: Counters)
    requires Below(a, b) && Below(b, c)
    ensures Below(a, c)
  {
    var i :| 0 <= i < 6 && a[i] < b[i] && a[..i] == b[..i];
    var j :| 0 <= j < 6 && b[j] < c[j] && b[..j] == c[..j];
    var k := Min(i, j);
    assert a[..k] == a[..i][..k] == b[..i][..k] == b[..k];
    assert b[..k] == b[..j][..k] == c[..j][..k] == c[..k];
    if i < j {
      assert b[..j][i] == c[..j][i];
    } else if j < i {
      assert a[..i][j] == b[..i][j];
    }
    assert a[k] < c[k];
  }

  lemma BumpedIsAbove(c: Counters, slot: nat)
    requires slot < 6
    ensures Below(c, Bumped(c, slot))
  {
    assert c[..slot] == Bumped(c, slot)[..slot];
  }

  /** Every counted heading moves the counters up. */
  lemma {:induction false} CountersRise(s: seq<Heading>, i: nat, j: nat)
    requires i < j < |s| && Counts(s[j])
    ensures Below(CountersAfter(s, i + 1), CountersAfter(s, j + 1))
    decreases j - i
  {
    hide Bumped, Below;
    BumpedIsAbove(CountersAfter(s, j), Slot(s[j]));
    RiseTo(s, i, j);
    if CountersAfter(s, i + 1) != CountersAfter(s, j) {
      BelowTransitive(CountersAfter(s, i + 1), CountersAfter(s, j), CountersAfter(s, j + 1));
    }
  }

  lemma {:induction false} RiseTo(s: seq<Heading>, i: nat, j: nat)
    requires i < j <= |s|
    ensures CountersAfter(s, i + 1) == CountersAfter(s, j) || Below(CountersAfter(s, i + 1), CountersAfter(s, j))
    decreases j
  {
    hide Bumped, Below;
    if i + 1 < j {
      RiseTo(s, i, j - 1);
      if Counts(s[j - 1]) {
        BumpedIsAbove(CountersAfter(s, j - 1), Slot(s[j - 1]));
        if CountersAfter(s, i + 1) != CountersAfter(s, j - 1) {
          BelowTransitive(CountersAfter(s, i + 1), CountersAfter(s, j - 1), CountersAfter(s, j));
        }
      }
    }
  }

  /** The counters of two headings that are counted are never the same. */
  lemma CountersDiffer(s: seq<Heading>, i: nat, j: nat)
    requires i < j < |s| && Counts(s[i]) && Counts(s[j])
    ensures CountersAfter(s, i + 1) != CountersAfter(s, j + 1)
  {
    hide CountersAfter;
    CountersRise(s, i, j);
  }

  /** The nearest counted heading before `k` at a smaller slot, or -1. */
  function AboveFrom(s: seq<Heading>, k: nat, slot: nat): (r: int)
    requires k <= |s|
    ensures -1 <= r < k && (0 <= r ==> Counts(s[r]) && Slot(s[r]) < slot)
    ensures forall i :: r < i < k && Counts(s[i]) ==> slot <= Slot(s[i])
  {
    if k == 0 then -1 else if Counts(s[k - 1]) && Slot(s[k - 1]) < slot then k - 1 else AboveFrom(s, k - 1, slot)
  }

  /** The heading that a counted heading is numbered under, or -1. */
  function Above(s: seq<Heading>, i: nat): (r: int)
    requires i < |s|
    ensures -1 <= r < i && (0 <= r ==> Counts(s[r]))
  {
    AboveFrom(s, i, Slot(s[i]))
  }

  /** How many counted headings from `from` to `end` are at the slot. */
  function Peers(s: seq<Heading>, from: nat, end: nat, slot: nat): nat
    requires end <= |s|
    decreases end
  {
    if end <= from then 0 else Peers(s, from, end - 1, slot) + if Counts(s[end - 1])
      && Slot(s[end - 1]) == slot then 1 else 0
  }

  /** While headings are at `slot` or deeper, its counter counts and the ones before it stay. */
  lemma {:induction false} CounterCounts(s: seq<Heading>, from: nat, end: nat, slot: nat)
    requires from <= end <= |s| && slot < 6 && forall i :: from <= i < end && Counts(s[i]) ==> slot <= Slot(s[i])
    ensures var c, d := CountersAfter(s, from), CountersAfter(s, end);
      d[..slot] == c[..slot] && d[slot] == c[slot] + Peers(s, from, end, slot)
    decreases end
  {
    if from < end {
      CounterCounts(s, from, end - 1, slot);
      var c, d := CountersAfter(s, end - 1), CountersAfter(s, end);
      assert d[..slot] == c[..slot];
    }
  }

  lemma {:induction false} NonZeroAppend(a: seq<nat>, b: seq<nat>)
    ensures NonZero(a + b) == NonZero(a) + NonZero(b)
    decreases |a|
  {
    if a == [] {
      assert a + b == b;
    } else {
      assert (a + b)[1..] == a[1..] + b;
      NonZeroAppend(a[1..], b);
      var head := if a[0] == 0 then [] else [a[0]];
      assert head + (NonZero(a[1..]) + NonZero(b)) == head + NonZero(a[1..]) + NonZero(b);
    }
  }

  predicate ZeroFrom(c: seq<nat>, from: nat) {
    forall k :: from <= k < |c| ==> c[k] == 0
  }

  lemma {:induction false} NonZeroNothing(c: seq<nat>)
    requires ZeroFrom(c, 0)
    ensures NonZero(c) == []
  {
    if c != [] {
      NonZeroNothing(c[1..]);
    }
  }

  function NumberAbove(s: seq<Heading>, i: int): seq<nat>
    requires i < |s|
  {
    if 0 <= i then NumberOf(s, i) else []
  }

  /** A heading's number is that of the heading above it, and its place among the headings of
      its slot since then. */
  lemma NumberExtends(s: seq<Heading>, i: nat)
    requires i < |s| && Counts(s[i])
    ensures NumberOf(s, i) == NumberAbove(s, Above(s, i)) + [Peers(s, Above(s, i) + 1, i + 1, Slot(s[i]))]
    ensures 0 < Peers(s, Above(s, i) + 1, i + 1, Slot(s[i]))
  {
    hide NonZero, CountersAfter, NumberAbove, Peers;
    var p, slot := Above(s, i), Slot(s[i]);
    var c, d := CountersAfter(s, p + 1), CountersAfter(s, i + 1);
    NothingShallower(s, i);
    CounterCounts(s, p + 1, i + 1, slot);
    CountersStart(s, p);
    assert c[slot] == 0 by {
      assert ZeroFrom(c, slot);
    }
    LastPeer(s, p + 1, i, slot);
    PrefixIsAbove(s, p, slot);
    OneNonZero(d[slot]);
    NonZeroAppend(c[..slot], [d[slot]]);
    assert d[..slot + 1] == c[..slot] + [d[slot]];
  }

  lemma NothingShallower(s: seq<Heading>, i: nat)
    requires i < |s|
    ensures forall k :: Above(s, i) + 1 <= k < i + 1 && Counts(s[k]) ==> Slot(s[i]) <= Slot(s[k])
  {
  }

  lemma PrefixIsAbove(s: seq<Heading>, p: int, slot: nat)
    requires -1 <= p < |s| && slot < 6 && (0 <= p ==> Counts(s[p]) && Slot(s[p]) < slot)
    ensures NonZero(CountersAfter(s, p + 1)[..slot]) == NumberAbove(s, p)
  {
    hide NonZero, CountersAfter;
    CountersStart(s, p);
    var c := CountersAfter(s, p + 1);
    if p < 0 {
      NonZeroNothing(c[..slot]);
    } else {
      var up := Slot(s[p]) + 1;
      NonZeroNothing(c[up..slot]);
      NonZeroAppend(c[..up], c[up..slot]);
      assert c[..slot] == c[..up] + c[up..slot];
      assert NonZero(c[..up]) + [] == NonZero(c[..up]);
    }
  }

  lemma OneNonZero(n: nat)
    requires 0 < n
    ensures NonZero([n]) == [n]
  {
    assert [n][1..] == [];
  }

  /** Right behind a counted heading, and at the start, all deeper counters are zero. */
  lemma CountersStart(s: seq<Heading>, p: int)
    requires -1 <= p < |s| && (0 <= p ==> Counts(s[p]))
    ensures ZeroFrom(CountersAfter(s, p + 1), if 0 <= p then Slot(s[p]) + 1 else 0)
  {
    if 0 <= p {
      var c := Bumped(CountersAfter(s, p), Slot(s[p]));
      assert CountersAfter(s, p + 1) == c;
    }
  }

  /** Headings under the same heading, or under none, are all at the same slot. */
  ghost predicate Even(s: seq<Heading>) {
    forall i, j :: 0 <= i < j < |s| && Counts(s[i]) && Counts(s[j]) && Above(s, i) == Above(s, j) ==>
      Slot(s[i]) == Slot(s[j])
  }

  ghost predicate NumbersDiffer(s: seq<Heading>) {
    forall i, j :: 0 <= i < j < |s| && Counts(s[i]) && Counts(s[j]) ==> NumberOf(s, i) != NumberOf(s, j)
  }

  lemma {:induction false} PeersGrow(s: seq<Heading>, from: nat, mid: nat, end: nat, slot: nat)
    requires from <= mid <= end <= |s|
    ensures Peers(s, from, end, slot) == Peers(s, from, mid, slot) + Peers(s, mid, end, slot)
    decreases end
  {
    if mid < end {
      PeersGrow(s, from, mid, end - 1, slot);
    }
  }

  lemma {:induction false} EvenDiffers(s: seq<Heading>, i: nat, j: nat)
    requires Even(s) && i < |s| && j < |s| && i != j && Counts(s[i]) && Counts(s[j])
    ensures NumberOf(s, i) != NumberOf(s, j)
    decreases i + j
  {
    hide NumberOf, Peers, Counts, Above, Slot;
    NumberExtends(s, i);
    NumberExtends(s, j);
    var p, q := Above(s, i), Above(s, j);
    if p == q {
      var low, high := Min(i, j), Max(i, j);
      var slot := Slot(s[i]);
      assert Slot(s[j]) == slot;
      PeersGrow(s, p + 1, low + 1, high + 1, slot);
      LastPeer(s, low + 1, high, slot);
      NumbersEnd(NumberAbove(s, p), NumberAbove(s, p), Peers(s, p + 1, i + 1, slot), Peers(s, p + 1, j + 1, slot));
    } else {
      NumbersEnd(NumberAbove(s, p), NumberAbove(s, q), Peers(s, p + 1, i + 1, Slot(s[i])),
        Peers(s, q + 1, j + 1, Slot(s[j])));
      if 0 <= p && 0 <= q {
        EvenDiffers(s, p, q);
      } else if 0 <= p {
        NumberExtends(s, p);
      } else {
        NumberExtends(s, q);
      }
    }
  }

  lemma LastPeer(s: seq<Heading>, from: nat, i: nat, slot: nat)
    requires from <= i < |s| && Counts(s[i]) && Slot(s[i]) == slot
    ensures 0 < Peers(s, from, i + 1, slot)
  {
  }

  lemma NumbersEnd(a: seq<nat>, b: seq<nat>, x: nat, y: nat)
    ensures a + [x] == b + [y] <==> a == b && x == y
  {
    if a + [x] == b + [y] {
      assert |a + [x]| == |a| + 1 && |b + [y]| == |b| + 1;
      assert (a + [x])[..|a|] == a && (b + [y])[..|b|] == b;
      assert (a + [x])[|a|] == x && (b + [y])[|b|] == y;
    }
  }

  /** The first heading of a slot under the same heading has the place 1. */
  lemma {:induction false} FirstPeer(s: seq<Heading>, i: nat) returns (f: nat)
    requires i < |s| && Counts(s[i])
    ensures f <= i && Counts(s[f]) && Above(s, f) == Above(s, i) && Slot(s[f]) == Slot(s[i])
    ensures NumberOf(s, f) == NumberAbove(s, Above(s, i)) + [1]
    decreases i
  {
    hide NumberOf;
    var p, slot := Above(s, i), Slot(s[i]);
    NumberExtends(s, i);
    if Peers(s, p + 1, i, slot) == 0 {
      return i;
    }
    var k := SomePeer(s, p + 1, i, slot);
    AboveAgain(s, p, k, i);
    f := FirstPeer(s, k);
  }

  lemma {:induction false} SomePeer(s: seq<Heading>, from: nat, end: nat, slot: nat) returns (k: nat)
    requires end <= |s| && 0 < Peers(s, from, end, slot)
    ensures from <= k < end && Counts(s[k]) && Slot(s[k]) == slot
    decreases end
  {
    k := end - 1;
    if !(Counts(s[k]) && Slot(s[k]) == slot) {
      k := SomePeer(s, from, end - 1, slot);
    }
  }

  /** Headings of the same slot with nothing shallower between are under the same heading. */
  lemma AboveAgain(s: seq<Heading>, p: int, k: nat, i: nat)
    requires i < |s| && p == Above(s, i) && p < k < i && Counts(s[k]) && Slot(s[k]) == Slot(s[i])
    ensures Above(s, k) == p
  {
    var q := Above(s, k);
    assert forall j :: p < j < i && Counts(s[j]) ==> Slot(s[i]) <= Slot(s[j]);
    assert q <= p;
  }

  /** The displayed numbers are all different exactly when the headings under each heading are
      all at one level: levels may be skipped, but not by some and not by others. */
  lemma NumbersDifferIff(s: seq<Heading>)
    ensures NumbersDiffer(s) <==> Even(s)
  {
    hide NumberOf;
    if Even(s) {
      forall i, j | 0 <= i < j < |s| && Counts(s[i]) && Counts(s[j]) ensures NumberOf(s, i) != NumberOf(s, j) {
        EvenDiffers(s, i, j);
      }
    } else {
      var i, j :| 0 <= i < j < |s| && Counts(s[i]) && Counts(s[j]) && Above(s, i) == Above(s, j)
        && Slot(s[i]) != Slot(s[j]);
      var f := FirstPeer(s, i);
      var g := FirstPeer(s, j);
      assert NumberOf(s, f) == NumberOf(s, g) && f != g;
      var low, high := Min(f, g), Max(f, g);
      assert NumberOf(s, low) == NumberOf(s, high);
    }
  }

  /** A document that starts two levels down shows its first two numbers alike. */
  lemma NumbersCanRepeat()
    ensures var s := [Heading(Chapter, 2, Range(0, 1)), Heading(Chapter, 1, Range(1, 2))];
      NumberOf(s, 0) == NumberOf(s, 1) == [1] && !Even(s) && !NumbersDiffer(s)
  {
    var s: seq<Heading> := [Heading(Chapter, 2, Range(0, 1)), Heading(Chapter, 1, Range(1, 2))];
    NumberExtends(s, 0);
    NumberExtends(s, 1);
    assert Above(s, 0) == -1 && Above(s, 1) == -1;
    assert Peers(s, 0, 1, 2) == 1;
    assert Peers(s, 0, 1, 1) == 0 && Peers(s, 0, 2, 1) == 1;
    assert Slot(s[0]) != Slot(s[1]);
    NumbersDifferIff(s);
  }

  // ---------------------------------------------------------------- table of contents

  datatype TocEntry = TocEntry(heading: Heading, children: seq<TocEntry>)

  /** Entries of the included sections; the entries below an excluded section take its place,
      and a section below the deepest level is left out with all it holds. */
  function Toc(sections: seq<Section>, included: Heading -> bool, deepest: Option<nat>): seq<TocEntry>
    decreases sections
  {
    if sections == [] then []
    else
      var rest := Toc(sections[1..], included, deepest);
      var h := sections[0].heading;
      if deepest.Some? && deepest.value < h.level then rest
      else
        var children := Toc(sections[0].children, included, deepest);
        (if included(h) then [TocEntry(h, children)] else children) + rest
  }

  function Flat(entries: seq<TocEntry>): seq<Heading>
    decreases entries
  {
    if entries == [] then [] else [entries[0].heading] + Flat(entries[0].children) + Flat(entries[1..])
  }

  /** The headings that belong in the table, in order. */
  function Listed(s: seq<Heading>, included: Heading -> bool, deepest: Option<nat>): seq<Heading> {
    if s == [] then []
    else
      (if included(s[0]) && (deepest.Some? ==> s[0].level <= deepest.value) then [s[0]] else [])
      + Listed(s[1..], included, deepest)
  }

  method TocEntries(sections: seq<Section>, included: Heading -> bool, deepest: Option<nat>)
      returns (entries: seq<TocEntry>)
    ensures entries == Toc(sections, included, deepest)
    decreases sections
  {
    entries := [];
    assert sections[0..] == sections;
    for i := 0 to |sections|
      invariant Toc(sections, included, deepest) == entries + Toc(sections[i..], included, deepest)
    {
      TocStep(sections, i, included, deepest, entries);
      var section := sections[i];
      if deepest.Some? && deepest.value < section.heading.level {
        continue;
      }
      var children := TocEntries(section.children, included, deepest);
      if included(section.heading) {
        entries := entries + [TocEntry(section.heading, children)];
      } else {
        entries := entries + children;
      }
    }
  }

  lemma TocStep(sections: seq<Section>, i: nat, included: Heading -> bool, deepest: Option<nat>, done: seq<TocEntry>)
    requires i < |sections|
    ensures var h, children, rest := sections[i].heading, Toc(sections[i].children, included, deepest),
      Toc(sections[i + 1..], included, deepest);
      done + Toc(sections[i..], included, deepest)
      == if deepest.Some? && deepest.value < h.level then done + rest
         else done + (if included(h) then [TocEntry(h, children)] else children) + rest
  {
    var h, children, rest := sections[i].heading, Toc(sections[i].children, included, deepest),
      Toc(sections[i + 1..], included, deepest);
    assert sections[i..][1..] == sections[i + 1..];
    var here := if included(h) then [TocEntry(h, children)] else children;
    assert done + (here + rest) == done + here + rest;
  }

  lemma {:induction false} FlatAppend(a: seq<TocEntry>, b: seq<TocEntry>)
    ensures Flat(a + b) == Flat(a) + Flat(b)
    decreases |a|
  {
    if a == [] {
      assert a + b == b;
    } else {
      assert (a + b)[1..] == a[1..] + b;
      FlatAppend(a[1..], b);
    }
  }

  lemma {:induction false} ListedAppend(a: seq<Heading>, b: seq<Heading>, included: Heading -> bool,
      deepest: Option<nat>)
    ensures Listed(a + b, included, deepest) == Listed(a, included, deepest) + Listed(b, included, deepest)
    decreases |a|
  {
    if a == [] {
      assert a + b == b;
    } else {
      assert (a + b)[0] == a[0] && (a + b)[1..] == a[1..] + b;
      ListedAppend(a[1..], b, included, deepest);
      var first := if included(a[0]) && (deepest.Some? ==> a[0].level <= deepest.value) then [a[0]] else [];
      var rest, after := Listed(a[1..], included, deepest), Listed(b, included, deepest);
      assert Listed(a + b, included, deepest) == first + (rest + after);
      assert first + (rest + after) == first + rest + after;
    }
  }

  /** Below a level that is too deep nothing belongs in the table. */
  lemma {:induction false} DeepIsUnlisted(sections: seq<Section>, above: nat, included: Heading -> bool, deepest: nat)
    requires LevelsGrow(sections, above) && deepest < above
    ensures Listed(Preorder(sections), included, Some(deepest)) == []
    decreases sections
  {
    if sections != [] {
      var h := sections[0].heading;
      DeepIsUnlisted(sections[0].children, h.level, included, deepest);
      DeepIsUnlisted(sections[1..], above, included, deepest);
      ListedAppend([h] + Preorder(sections[0].children), Preorder(sections[1..]), included, Some(deepest));
      ListedAppend([h], Preorder(sections[0].children), included, Some(deepest));
    }
  }

  lemma OneListed(h: Heading, included: Heading -> bool, deepest: Option<nat>)
    ensures Listed([h], included, deepest) == if included(h)
      && (deepest.Some? ==> h.level <= deepest.value) then [h] else []
  {
  }

  lemma ListedSection(h: Heading, below: seq<Heading>, after: seq<Heading>, included: Heading -> bool,
      deepest: Option<nat>)
    ensures Listed([h] + below + after, included, deepest)
         == (if included(h) && (deepest.Some? ==> h.level <= deepest.value) then [h] else [])
            + Listed(below, included, deepest) + Listed(after, included, deepest)
  {
    hide Listed;
    ListedAppend([h] + below, after, included, deepest);
    ListedAppend([h], below, included, deepest);
    OneListed(h, included, deepest);
  }

  /** In preorder the table lists exactly the included sections that are not too deep. */
  lemma {:induction false} TocLists(sections: seq<Section>, above: nat, included: Heading -> bool, deepest: Option<nat>)
    requires LevelsGrow(sections, above)
    ensures Flat(Toc(sections, included, deepest)) == Listed(Preorder(sections), included, deepest)
    decreases sections
  {
    hide Listed, Flat;
    if sections != [] {
      var h, children, rest := sections[0].heading, sections[0].children, sections[1..];
      TocLists(rest, above, included, deepest);
      ListedSection(h, Preorder(children), Preorder(rest), included, deepest);
      if deepest.Some? && deepest.value < h.level {
        DeepIsUnlisted(children, h.level, included, deepest.value);
      } else {
        TocLists(children, h.level, included, deepest);
        var inner := Toc(children, included, deepest);
        var here := if included(h) then [TocEntry(h, inner)] else inner;
        FlatAppend(here, Toc(rest, included, deepest));
        OneEntry(h, inner);
      }
    } else {
      NothingListed(included, deepest);
    }
  }

  lemma NothingListed(included: Heading -> bool, deepest: Option<nat>)
    ensures Flat([]) == [] && Listed([], included, deepest) == []
  {
  }

  lemma OneEntry(h: Heading, children: seq<TocEntry>)
    ensures Flat([TocEntry(h, children)]) == [h] + Flat(children)
  {
  }

  /** The table of contents of a document lists its headings in order: those that are included,
      not discrete and not too deep. */
  lemma TocOfDocument(all: seq<Heading>, included: Heading -> bool, deepest: Option<nat>)
    ensures Flat(Toc(Forest(Nested(all)), included, deepest)) == Listed(Nested(all), included, deepest)
  {
    hide Forest, Nested, Toc, Flat, Listed;
    ForestLevels(all);
    ForestIsPreorder(all);
    TocLists(Forest(Nested(all)), 0, included, deepest);
  }
}
