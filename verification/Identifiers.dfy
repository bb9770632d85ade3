/** Identifiers of headings, and the targets that references can name. */
module Identifiers {
  import opened Text
  import opened Sorting

  /** An explicit block anchor; lowering has attached it to a block or made it invalid. */
  datatype Anchor = Anchor(id: Text, target: Option<TextRange>, valid: bool)

  /** A heading's text range, and the identifier base of its text. */
  datatype Heading = Heading(base: Text, range: TextRange)

  /** A block in document order. */
  datatype Block = Block(range: TextRange, heading: Option<Heading>)

  datatype InlineAnchor = InlineAnchor(id: Text, range: TextRange)

  datatype Origin = FromAnchor | FromText

  datatype HeadingId = HeadingId(range: TextRange, base: Text, id: Text, origin: Origin)

  datatype Target = Target(id: Text, range: TextRange)

  // ---------------------------------------------------------------- candidates

  function Digits(n: nat): (r: Text)
    ensures |r| > 0 && (n >= 10 <==> |r| > 1)
  {
    var last := ['0' + (n % 10) as char];
    if n < 10 then last else Digits(n / 10) + last
  }

  lemma {:induction false} DigitsDiffer(m: nat, n: nat)
    requires Digits(m) == Digits(n)
    ensures m == n
    decreases m
  {
    assert m % 10 == n % 10 by {
      var a, b := Digits(m), Digits(n);
      assert a[|a| - 1] == '0' + (m % 10) as char && b[|b| - 1] == '0' + (n % 10) as char;
    }
    if m >= 10 {
      assert Digits(m)[..|Digits(m)| - 1] == Digits(m / 10);
      assert Digits(n)[..|Digits(n)| - 1] == Digits(n / 10);
      DigitsDiffer(m / 10, n / 10);
    }
  }

  /** `base`, then `base_2`, `base_3` and so on. */
  function Candidate(base: Text, k: nat): Text {
    if k == 1 then base else base + "_" + Digits(k)
  }

  lemma CandidatesDiffer(base: Text, j: nat, k: nat)
    requires 0 < j && 0 < k && Candidate(base, j) == Candidate(base, k)
    ensures j == k
  {
    var c := Candidate(base, j);
    if j != 1 && k != 1 {
      assert c[|base| + 1..] == Digits(j);
      assert c[|base| + 1..] == Digits(k);
      DigitsDiffer(j, k);
    }
  }

  /** The used identifiers among the candidates after the `k`-th. */
  ghost function Ahead(base: Text, used: set<Text>, k: nat): set<Text> {
    set u | u in used && exists j: nat :: k < j && u == Candidate(base, j)
  }

  lemma AheadShrinks(base: Text, used: set<Text>, k: nat)
    requires Candidate(base, k + 1) in used
    ensures Ahead(base, used, k + 1) < Ahead(base, used, k)
  {
    hide Candidate;
    var c := Candidate(base, k + 1);
    assert c in Ahead(base, used, k);
    if c in Ahead(base, used, k + 1) {
      var j: nat :| k + 1 < j && c == Candidate(base, j);
      CandidatesDiffer(base, k + 1, j);
      assert false;
    }
  }

  lemma {:induction false} SubsetSize<T>(a: set<T>, b: set<T>)
    requires a <= b
    ensures |a| <= |b| && (a < b ==> |a| < |b|)
    decreases |a|
  {
    if a == {} {
      assert a < b ==> b != {};
    } else {
      var x :| x in a;
      SubsetSize(a - {x}, b - {x});
      assert |b| == |b - {x}| + 1 && |a| == |a - {x}| + 1;
      if a < b {
        var y :| y in b && y !in a;
        assert y in b - {x} && y !in a - {x};
      }
    }
  }

  lemma FewerAhead(base: Text, used: set<Text>, k: nat)
    requires Candidate(base, k + 1) in used
    ensures |Ahead(base, used, k + 1)| < |Ahead(base, used, k)|
  {
    AheadShrinks(base, used, k);
    SubsetSize(Ahead(base, used, k + 1), Ahead(base, used, k));
  }

  /** The first unused candidate after the `k`-th. */
  function FirstUnused(base: Text, used: set<Text>, k: nat): (r: nat)
    ensures k < r && Candidate(base, r) !in used
    ensures forall j :: k < j < r ==> Candidate(base, j) in used
    decreases |Ahead(base, used, k)|
  {
    if Candidate(base, k + 1) !in used then k + 1
    else
      FewerAhead(base, used, k);
      FirstUnused(base, used, k + 1)
  }

  lemma UnusedStep(base: Text, used: set<Text>, k: nat)
    ensures Candidate(base, k + 1) !in used ==> FirstUnused(base, used, k) == k + 1
    ensures Candidate(base, k + 1) in used ==> FirstUnused(base, used, k) == FirstUnused(base, used, k + 1)
    ensures Candidate(base, k + 1) in used ==> |Ahead(base, used, k + 1)| < |Ahead(base, used, k)|
  {
    hide Candidate, Ahead;
    if Candidate(base, k + 1) in used {
      FewerAhead(base, used, k);
    }
  }

  /** The counter grows by no more than the used identifiers, and one. */
  lemma {:induction false} CounterIsBounded(base: Text, used: set<Text>, k: nat)
    ensures FirstUnused(base, used, k) <= k + |Ahead(base, used, k)| + 1 <= k + |used| + 1
    decreases |Ahead(base, used, k)|
  {
    SubsetSize(Ahead(base, used, k), used);
    if Candidate(base, k + 1) in used {
      FewerAhead(base, used, k);
      CounterIsBounded(base, used, k + 1);
    }
  }

  // ---------------------------------------------------------------- the allocator

  datatype State = State(occurrences: map<Text, nat>, used: set<Text>)

  function Count(s: State, base: Text): nat {
    if base in s.occurrences then s.occurrences[base] else 0
  }

  function Choice(s: State, base: Text): Text {
    Candidate(base, FirstUnused(base, s.used, Count(s, base)))
  }

  function Allocate(s: State, base: Text): State {
    State(s.occurrences[base := FirstUnused(base, s.used, Count(s, base))], s.used + {Choice(s, base)})
  }

  class Allocator {
    var occurrences: map<Text, nat>
    var used: set<Text>

    function Value(): State
      reads this
    {
      State(occurrences, used)
    }

    constructor (taken: set<Text>)
      ensures Value() == State(map[], taken)
    {
      occurrences := map[];
      used := taken;
    }

    /** Counts up until a candidate is new. */
    method UniqueHeadingId(base: Text) returns (id: Text)
      modifies this
      ensures id == Choice(old(Value()), base) && Value() == Allocate(old(Value()), base)
    {
      hide Candidate, FirstUnused, Ahead;
      var occurrence := Count(Value(), base);
      while true
        invariant used == old(used) && occurrences == old(occurrences)
        invariant FirstUnused(base, used, occurrence) == FirstUnused(base, used, Count(Value(), base))
        decreases |Ahead(base, used, occurrence)|
      {
        UnusedStep(base, used, occurrence);
        occurrence := occurrence + 1;
        id := Candidate(base, occurrence);
        if id !in used {
          used := used + {id};
          occurrences := occurrences[base := occurrence];
          return;
        }
      }
    }
  }

  // ---------------------------------------------------------------- the document

  /** The valid anchors of a block, in document order. */
  function Attached(anchors: seq<Anchor>, range: TextRange): (r: seq<Text>)
  {
    if anchors == [] then []
    else
      (if anchors[0].valid && anchors[0].target == Some(range) then [anchors[0].id] else [])
      + Attached(anchors[1..], range)
  }

  function ValidIds(anchors: seq<Anchor>): set<Text> {
    set a | a in anchors && a.valid :: a.id
  }

  function InlineIds(inlines: seq<InlineAnchor>): set<Text> {
    set a | a in inlines :: a.id
  }

  function Taken(anchors: seq<Anchor>, inlines: seq<InlineAnchor>): set<Text> {
    ValidIds(anchors) + InlineIds(inlines)
  }

  /** Whether a block gets an identifier made from its text. */
  predicate Generates(b: Block, anchors: seq<Anchor>) {
    b.heading.Some? && Attached(anchors, b.range) == []
  }

  function After(b: Block, anchors: seq<Anchor>, s: State): State {
    if Generates(b, anchors) then Allocate(s, b.heading.value.base) else s
  }

  function HeadingOf(b: Block, anchors: seq<Anchor>, s: State): HeadingId
    requires b.heading.Some?
  {
    var attached := Attached(anchors, b.range);
    if attached != [] then HeadingId(b.heading.value.range, b.heading.value.base, attached[0], FromAnchor)
    else HeadingId(b.heading.value.range, b.heading.value.base, Choice(s, b.heading.value.base), FromText)
  }

  function HeadingIds(blocks: seq<Block>, anchors: seq<Anchor>, s: State): seq<HeadingId> {
    if blocks == [] then []
    else
      (if blocks[0].heading.Some? then [HeadingOf(blocks[0], anchors, s)] else [])
      + HeadingIds(blocks[1..], anchors, After(blocks[0], anchors, s))
  }

  function AnchorTargets(ids: seq<Text>, range: TextRange): seq<Target> {
    seq(|ids|, i requires 0 <= i < |ids| => Target(ids[i], range))
  }

  function BlockTargets(b: Block, anchors: seq<Anchor>, s: State): seq<Target> {
    AnchorTargets(Attached(anchors, b.range), b.range)
    + if Generates(b, anchors) then [Target(Choice(s, b.heading.value.base), b.range)] else []
  }

  function AllTargets(blocks: seq<Block>, anchors: seq<Anchor>, s: State): seq<Target> {
    if blocks == [] then []
    else BlockTargets(blocks[0], anchors, s) + AllTargets(blocks[1..], anchors, After(blocks[0], anchors, s))
  }

  function InlineTargets(inlines: seq<InlineAnchor>): seq<Target> {
    seq(|inlines|, i requires 0 <= i < |inlines| => Target(inlines[i].id, inlines[i].range))
  }

  function TargetKey(t: Target): Key { (t.range.start, t.range.end) }

  function HeadingKey(h: HeadingId): Key { (h.range.start, h.range.end) }

  datatype Identifiers = Identifiers(headings: seq<HeadingId>, targets: seq<Target>, byId: map<Text, nat>)

  function TargetById(ids: Identifiers, id: Text): Option<Target> {
    if id in ids.byId && ids.byId[id] < |ids.targets| then Some(ids.targets[ids.byId[id]]) else None
  }

  /** The first target with an identifier. */
  function FirstOrdinals(targets: seq<Target>, k: nat): (r: map<Text, nat>)
    requires k <= |targets|
    ensures forall id :: id in r ==> r[id] < k && targets[r[id]].id == id
    ensures forall i :: 0 <= i < k ==> targets[i].id in r
  {
    if k == 0 then map[]
    else
      var earlier := FirstOrdinals(targets, k - 1);
      if targets[k - 1].id in earlier then earlier else earlier[targets[k - 1].id := k - 1]
  }

  function Identified(blocks: seq<Block>, anchors: seq<Anchor>, inlines: seq<InlineAnchor>): Identifiers {
    var s := State(map[], Taken(anchors, inlines));
    var targets := SortBy(AllTargets(blocks, anchors, s) + InlineTargets(inlines), TargetKey);
    Identifiers(SortBy(HeadingIds(blocks, anchors, s), HeadingKey), targets, FirstOrdinals(targets, |targets|))
  }

  lemma NoneAttached(range: TextRange)
    ensures Attached([], range) == []
  {
  }

  lemma AttachedStep(anchors: seq<Anchor>, range: TextRange, i: nat, done: seq<Text>)
    requires i < |anchors|
    ensures var a, rest := anchors[i], Attached(anchors[i + 1..], range);
      done + Attached(anchors[i..], range) == if a.valid && a.target == Some(range) then done + [a.id] + rest
        else done + rest
  {
    assert anchors[i..][1..] == anchors[i + 1..];
    var a, rest := anchors[i], Attached(anchors[i + 1..], range);
    assert done + ([a.id] + rest) == done + [a.id] + rest;
    assert done + ([] + rest) == done + rest;
  }

  method FindAttached(anchors: seq<Anchor>, range: TextRange) returns (attached: seq<Text>)
    ensures attached == Attached(anchors, range)
  {
    hide Attached;
    attached := [];
    assert anchors[0..] == anchors;
    NoneAttached(range);
    for i := 0 to |anchors|
      invariant Attached(anchors, range) == attached + Attached(anchors[i..], range)
    {
      AttachedStep(anchors, range, i, attached);
      if anchors[i].valid && anchors[i].target == Some(range) {
        attached := attached + [anchors[i].id];
      }
    }
    assert anchors[|anchors|..] == [];
  }

  /** One block of the walk: its heading and its targets. */
  method VisitBlock(allocator: Allocator, block: Block, anchors: seq<Anchor>)
      returns (headings: seq<HeadingId>, targets: seq<Target>)
    modifies allocator
    ensures allocator.Value() == After(block, anchors, old(allocator.Value()))
    ensures headings == if block.heading.Some? then [HeadingOf(block, anchors, old(allocator.Value()))] else []
    ensures targets == BlockTargets(block, anchors, old(allocator.Value()))
  {
    hide Allocate, Choice, Attached;
    headings := [];
    var attached := FindAttached(anchors, block.range);
    targets := AnchorTargets(attached, block.range);
    if block.heading.Some? {
      var base, range := block.heading.value.base, block.heading.value.range;
      if attached != [] {
        headings := [HeadingId(range, base, attached[0], FromAnchor)];
      } else {
        var id := allocator.UniqueHeadingId(base);
        headings := [HeadingId(range, base, id, FromText)];
        targets := targets + [Target(id, block.range)];
      }
    }
  }

  method IndexIds(targets: seq<Target>) returns (byId: map<Text, nat>)
    ensures byId == FirstOrdinals(targets, |targets|)
  {
    hide FirstOrdinals;
    byId := map[];
    NoOrdinals(targets);
    for i := 0 to |targets|
      invariant byId == FirstOrdinals(targets, i)
    {
      OrdinalStep(targets, i);
      if targets[i].id !in byId {
        byId := byId[targets[i].id := i];
      }
    }
  }

  lemma NoOrdinals(targets: seq<Target>)
    ensures FirstOrdinals(targets, 0) == map[]
  {
  }

  lemma OrdinalStep(targets: seq<Target>, i: nat)
    requires i < |targets|
    ensures var earlier := FirstOrdinals(targets, i);
      FirstOrdinals(targets, i + 1) == if targets[i].id in earlier then earlier else earlier[targets[i].id := i]
  {
  }

  method BuildIdentifiers(blocks: seq<Block>, anchors: seq<Anchor>, inlines: seq<InlineAnchor>)
      returns (ids: Identifiers)
    ensures ids == Identified(blocks, anchors, inlines)
  {
    hide After, HeadingOf, BlockTargets, Taken, SortBy, FirstOrdinals, HeadingIds, AllTargets, InlineTargets,
      TargetKey, HeadingKey;
    var taken := Taken(anchors, inlines);
    var allocator := new Allocator(taken);
    ghost var s := State(map[], taken);
    var headings: seq<HeadingId> := [];
    var targets: seq<Target> := [];
    WholeStep(blocks, anchors, s);
    for i := 0 to |blocks|
      invariant HeadingIds(blocks, anchors, s) == headings + HeadingIds(blocks[i..], anchors, allocator.Value())
      invariant AllTargets(blocks, anchors, s) == targets + AllTargets(blocks[i..], anchors, allocator.Value())
    {
      BlockStep(blocks, anchors, allocator.Value(), i, headings, targets);
      var newHeadings, newTargets := VisitBlock(allocator, blocks[i], anchors);
      headings := headings + newHeadings;
      targets := targets + newTargets;
    }
    LastStep(blocks, anchors, allocator.Value(), headings, targets);
    targets := SortBy(targets + InlineTargets(inlines), TargetKey);
    headings := SortBy(headings, HeadingKey);
    var byId := IndexIds(targets);
    ids := Identifiers(headings, targets, byId);
  }

  lemma WholeStep(blocks: seq<Block>, anchors: seq<Anchor>, s: State)
    ensures HeadingIds(blocks, anchors, s) == [] + HeadingIds(blocks[0..], anchors, s)
    ensures AllTargets(blocks, anchors, s) == [] + AllTargets(blocks[0..], anchors, s)
  {
    assert blocks[0..] == blocks;
  }

  lemma LastStep(blocks: seq<Block>, anchors: seq<Anchor>, s: State, headings: seq<HeadingId>, targets: seq<Target>)
    ensures headings + HeadingIds(blocks[|blocks|..], anchors, s) == headings
    ensures targets + AllTargets(blocks[|blocks|..], anchors, s) == targets
  {
  }

  lemma BlockStep(blocks: seq<Block>, anchors: seq<Anchor>, s: State, i: nat, headings: seq<HeadingId>,
      targets: seq<Target>)
    requires i < |blocks|
    ensures var b := blocks[i]; var next := After(b, anchors, s);
      && headings + HeadingIds(blocks[i..], anchors, s)
         == headings + (if b.heading.Some? then [HeadingOf(b, anchors, s)] else [])
           + HeadingIds(blocks[i + 1..], anchors, next)
      && targets + AllTargets(blocks[i..], anchors, s)
         == targets + BlockTargets(b, anchors, s) + AllTargets(blocks[i + 1..], anchors, next)
  {
    hide HeadingOf, BlockTargets, After;
    assert blocks[i..][1..] == blocks[i + 1..];
  }

  // ---------------------------------------------------------------- what the identifiers promise

  /** The identifiers made from heading texts, in document order. */
  function Made(blocks: seq<Block>, anchors: seq<Anchor>, s: State): seq<Text> {
    if blocks == [] then []
    else
      (if Generates(blocks[0], anchors) then [Choice(s, blocks[0].heading.value.base)] else [])
      + Made(blocks[1..], anchors, After(blocks[0], anchors, s))
  }

  /** Made identifiers differ from everything in use before and from each other. */
  lemma {:induction false} MadeAreNew(blocks: seq<Block>, anchors: seq<Anchor>, s: State)
    ensures forall i :: 0 <= i < |Made(blocks, anchors, s)| ==> Made(blocks, anchors, s)[i] !in s.used
    ensures forall i, j :: 0 <= i < j < |Made(blocks, anchors, s)| ==>
      Made(blocks, anchors, s)[i] != Made(blocks, anchors, s)[j]
    decreases |blocks|
  {
    hide Candidate, FirstUnused;
    if blocks != [] {
      MadeAreNew(blocks[1..], anchors, After(blocks[0], anchors, s));
      if Generates(blocks[0], anchors) {
        ChoiceIsNew(s, blocks[0].heading.value.base);
      }
    }
  }

  lemma ChoiceIsNew(s: State, base: Text)
    ensures Choice(s, base) !in s.used && Choice(s, base) in Allocate(s, base).used
  {
    hide Candidate;
  }

  // ---------------------------------------------------------------- the plain search

  /** The allocator without counters: the first candidate that is not in use. */
  function Plain(base: Text, used: set<Text>): Text {
    Candidate(base, FirstUnused(base, used, 0))
  }

  function PlainMade(blocks: seq<Block>, anchors: seq<Anchor>, used: set<Text>): seq<Text> {
    if blocks == [] then []
    else if Generates(blocks[0], anchors) then
      var id := Plain(blocks[0].heading.value.base, used);
      [id] + PlainMade(blocks[1..], anchors, used + {id})
    else PlainMade(blocks[1..], anchors, used)
  }

  /** What the counters know: every candidate up to the count is in use. */
  ghost predicate Counted(s: State) {
    forall base, j: nat :: 0 < j <= Count(s, base) ==> Candidate(base, j) in s.used
  }

  lemma {:induction false} SkipsUsed(base: Text, used: set<Text>, i: nat, k: nat)
    requires i <= k && forall j: nat :: i < j <= k ==> Candidate(base, j) in used
    ensures FirstUnused(base, used, i) == FirstUnused(base, used, k)
    decreases k - i
  {
    hide Candidate, FirstUnused;
    if i < k {
      UnusedStep(base, used, i);
      SkipsUsed(base, used, i + 1, k);
    }
  }

  lemma AllocateKeepsCounts(s: State, base: Text)
    requires Counted(s)
    ensures Choice(s, base) == Plain(base, s.used) && Counted(Allocate(s, base))
  {
    hide Candidate;
    var k := FirstUnused(base, s.used, Count(s, base));
    SkipsUsed(base, s.used, 0, Count(s, base));
    var t := Allocate(s, base);
    forall b, j: nat | 0 < j <= Count(t, b) ensures Candidate(b, j) in t.used {
      if b == base && Count(s, base) < j < k {
        assert Candidate(base, j) in s.used;
      }
    }
  }

  /** Counting on from the last use of a base finds what a search from the first candidate finds. */
  lemma {:induction false} CountersAreShortcuts(blocks: seq<Block>, anchors: seq<Anchor>, s: State)
    requires Counted(s)
    ensures Made(blocks, anchors, s) == PlainMade(blocks, anchors, s.used)
    decreases |blocks|
  {
    hide Counted, Choice, Plain, Attached;
    if blocks != [] {
      if Generates(blocks[0], anchors) {
        AllocateKeepsCounts(s, blocks[0].heading.value.base);
      }
      CountersAreShortcuts(blocks[1..], anchors, After(blocks[0], anchors, s));
    }
  }

  // ---------------------------------------------------------------- looking up a heading

  lemma {:induction false} AttachedIsValid(anchors: seq<Anchor>, range: TextRange)
    ensures forall id :: id in Attached(anchors, range) ==> id in ValidIds(anchors)
    decreases |anchors|
  {
    if anchors != [] {
      AttachedIsValid(anchors[1..], range);
      assert forall a :: a in anchors[1..] ==> a in anchors;
      assert anchors[0] in anchors;
    }
  }

  /** Targets of blocks have a valid anchor's identifier or a made one. */
  lemma {:induction false} TargetIds(blocks: seq<Block>, anchors: seq<Anchor>, s: State)
    ensures forall t :: t in AllTargets(blocks, anchors, s) ==>
      t.id in ValidIds(anchors) || t.id in Made(blocks, anchors, s)
    decreases |blocks|
  {
    hide Choice, ValidIds, Attached, After;
    if blocks != [] {
      TargetIds(blocks[1..], anchors, After(blocks[0], anchors, s));
      AttachedIsValid(anchors, blocks[0].range);
    }
  }

  ghost predicate OnlyTarget(targets: seq<Target>, t: Target) {
    t in targets && forall u :: u in targets && u.id == t.id ==> u == t
  }

  /** A made identifier belongs to one target only, that of its heading. */
  lemma {:induction false} MadeIsOnlyTarget(blocks: seq<Block>, anchors: seq<Anchor>, s: State, h: HeadingId)
      returns (b: Block)
    requires ValidIds(anchors) <= s.used
    requires h in HeadingIds(blocks, anchors, s) && h.origin.FromText?
    ensures b in blocks && Generates(b, anchors) && b.heading.value.range == h.range
    ensures h.id in Made(blocks, anchors, s) && OnlyTarget(AllTargets(blocks, anchors, s), Target(h.id, b.range))
    decreases |blocks|
  {
    hide Choice, ValidIds, Attached, Allocate;
    b := blocks[0];
    var next := After(b, anchors, s);
    var mine, rest := BlockTargets(b, anchors, s), AllTargets(blocks[1..], anchors, next);
    AttachedIsValid(anchors, b.range);
    MadeAreNew(blocks, anchors, s);
    MadeAreNew(blocks[1..], anchors, next);
    TargetIds(blocks[1..], anchors, next);
    if Generates(b, anchors) {
      ChoiceIsNew(s, b.heading.value.base);
      UsedGrows(s, b.heading.value.base);
    }
    if h in HeadingIds(blocks[1..], anchors, next) {
      b := MadeIsOnlyTarget(blocks[1..], anchors, next, h);
    }
  }

  lemma UsedGrows(s: State, base: Text)
    ensures s.used <= Allocate(s, base).used
  {
  }

  /** A made identifier leads back to its heading. */
  lemma HeadingIsFound(blocks: seq<Block>, anchors: seq<Anchor>, inlines: seq<InlineAnchor>, h: HeadingId)
      returns (b: Block)
    requires h in Identified(blocks, anchors, inlines).headings && h.origin.FromText?
    ensures b in blocks && b.heading.Some? && b.heading.value.range == h.range
    ensures TargetById(Identified(blocks, anchors, inlines), h.id) == Some(Target(h.id, b.range))
    ensures h.id !in Taken(anchors, inlines)
  {
    hide Made, HeadingIds, AllTargets, SortBy, ValidIds, InlineIds;
    var s := State(map[], Taken(anchors, inlines));
    var own, all := AllTargets(blocks, anchors, s), AllTargets(blocks, anchors, s) + InlineTargets(inlines);
    SortHolds(HeadingIds(blocks, anchors, s), HeadingKey);
    SortHolds(all, TargetKey);
    b := MadeIsOnlyTarget(blocks, anchors, s, h);
    MadeAreNew(blocks, anchors, s);
    InlineTargetIds(inlines);
    assert OnlyTarget(all, Target(h.id, b.range));
    var ids := Identified(blocks, anchors, inlines);
    assert OnlyTarget(ids.targets, Target(h.id, b.range));
  }

  lemma InlineTargetIds(inlines: seq<InlineAnchor>)
    ensures forall t :: t in InlineTargets(inlines) ==> t.id in InlineIds(inlines)
  {
  }

  /** Over a whole document, made identifiers are new and distinct, and each is the one that a
      search without counters makes. */
  lemma MadeAreUnique(blocks: seq<Block>, anchors: seq<Anchor>, inlines: seq<InlineAnchor>)
    ensures var taken := Taken(anchors, inlines); var ids := Made(blocks, anchors, State(map[], taken));
      && (forall i :: 0 <= i < |ids| ==> ids[i] !in taken)
      && (forall i, j :: 0 <= i < j < |ids| ==> ids[i] != ids[j])
      && ids == PlainMade(blocks, anchors, taken)
  {
    hide Made, PlainMade, Taken, Candidate;
    var s := State(map[], Taken(anchors, inlines));
    MadeAreNew(blocks, anchors, s);
    CountersAreShortcuts(blocks, anchors, s);
  }
}
