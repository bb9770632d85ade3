/** The precomputed index of a segment: arrays filled in reverse passes, consumed by one
    forward pass, and proved to answer as the forward searches of `InlineCandidates`. */
module InlineIndex {
  import opened Text
  import opened InlineModel
  import opened InlineGrammar
  import opened InlineRecognition
  import opened InlineCandidates
  import opened InlineEffort

  /** The index, and how many positions its construction inspected. */
  datatype Index = Index(candidates: seq<Candidate>, delimiters: Delimiters, labels: seq<nat>, inspected: nat)

  ghost predicate IndexesPattern(ix: CompactOffsets, v: Segment, p: string) {
    |ix.slots| == |v| + 1 && forall i :: 0 <= i <= |v| ==> ix.slots[i] == Encode(Find(v, i, p))
  }

  /** The slots from `from` on hold the next occurrence of the pattern. */
  ghost predicate Filled(slots: array<nat>, v: Segment, p: string, from: nat)
    reads slots
  {
    slots.Length == |v| + 1 && forall i :: from <= i <= |v| ==> slots[i] == Encode(Find(v, i, p))
  }

  /** One step of a reverse pass: the next occurrence of a pattern at or after `offset`. */
  method SetNext(slots: array<nat>, v: Segment, p: string, offset: nat, last: Option<nat>) returns (next: Option<nat>)
    requires offset < |v| && p != [] && Filled(slots, v, p, offset + 1) && last == Find(v, offset + 1, p)
    modifies slots
    ensures Filled(slots, v, p, offset) && next == Find(v, offset, p)
  {
    hide Find, StartsWith;
    FindStep(v, offset, p);
    next := if StartsWith(v, offset, p) then Some(offset) else last;
    slots[offset] := Encode(next);
  }

  method NewSlots(v: Segment, p: string) returns (slots: array<nat>)
    requires p != []
    ensures fresh(slots) && Filled(slots, v, p, |v|) && Find(v, |v|, p) == None
  {
    slots := new nat[|v| + 1](_ => MISSING);
  }

  lemma FilledIndexes(slots: array<nat>, v: Segment, p: string)
    requires Filled(slots, v, p, 0)
    ensures IndexesPattern(CompactOffsets(slots[..]), v, p)
  {
    hide Find, Encode;
  }

  /** The stored offset is the next occurrence. */
  lemma PatternAt(ix: CompactOffsets, v: Segment, p: string, i: nat)
    requires IndexesPattern(ix, v, p) && i <= |v|
    ensures i < |ix.slots| && ix.Get(i) == Find(v, i, p)
  {
  }

  ghost predicate UnitFilled(slots: array<nat>, v: Segment, c: char, from: nat)
    reads slots
  {
    slots.Length == |v| + 1 && forall i :: from <= i <= |v| ==> slots[i] == Encode(NextUnit(v, i, c))
  }

  method NewUnitSlots(v: Segment, c: char) returns (slots: array<nat>)
    ensures fresh(slots) && UnitFilled(slots, v, c, |v|) && NextUnit(v, |v|, c) == None
  {
    slots := new nat[|v| + 1](_ => MISSING);
  }

  method SetUnit(slots: array<nat>, v: Segment, c: char, offset: nat, last: Option<nat>) returns (next: Option<nat>)
    requires offset < |v| && UnitFilled(slots, v, c, offset + 1) && last == NextUnit(v, offset + 1, c)
    modifies slots
    ensures UnitFilled(slots, v, c, offset) && next == NextUnit(v, offset, c)
  {
    next := if v[offset] == c then Some(offset) else last;
    slots[offset] := Encode(next);
  }

  /** The offsets of plus runs and closing quotation marks, in one reverse pass. */
  method IndexOpeners(v: Segment)
    returns (plus: seq<CompactOffsets>, doubleQuote: CompactOffsets, singleQuote: CompactOffsets, inspected: nat)
    ensures |plus| == 3
    ensures IndexesPattern(plus[0], v, "+") && IndexesPattern(plus[1], v, "++") && IndexesPattern(plus[2], v, "+++")
    ensures IndexesPattern(doubleQuote, v, "`\"") && IndexesPattern(singleQuote, v, "`'")
    ensures inspected == |v|
  {
    hide Find, Encode, Filled, IndexesPattern;
    var one := NewSlots(v, "+");
    var two := NewSlots(v, "++");
    var three := NewSlots(v, "+++");
    var double := NewSlots(v, "`\"");
    var single := NewSlots(v, "`'");
    var last1, last2, last3, lastDouble, lastSingle := None, None, None, None, None;
    var offset := |v|;
    inspected := 0;
    while offset > 0
      invariant 0 <= offset <= |v| && inspected == |v| - offset
      invariant Filled(one, v, "+", offset) && last1 == Find(v, offset, "+")
      invariant Filled(two, v, "++", offset) && last2 == Find(v, offset, "++")
      invariant Filled(three, v, "+++", offset) && last3 == Find(v, offset, "+++")
      invariant Filled(double, v, "`\"", offset) && lastDouble == Find(v, offset, "`\"")
      invariant Filled(single, v, "`'", offset) && lastSingle == Find(v, offset, "`'")
    {
      offset := offset - 1;
      inspected := inspected + 1;
      last1 := SetNext(one, v, "+", offset, last1);
      last2 := SetNext(two, v, "++", offset, last2);
      last3 := SetNext(three, v, "+++", offset, last3);
      lastDouble := SetNext(double, v, "`\"", offset, lastDouble);
      lastSingle := SetNext(single, v, "`'", offset, lastSingle);
    }
    FilledIndexes(one, v, "+");
    FilledIndexes(two, v, "++");
    FilledIndexes(three, v, "+++");
    FilledIndexes(double, v, "`\"");
    FilledIndexes(single, v, "`'");
    plus := [CompactOffsets(one[..]), CompactOffsets(two[..]), CompactOffsets(three[..])];
    doubleQuote := CompactOffsets(double[..]);
    singleQuote := CompactOffsets(single[..]);
  }

  /** The offsets of brackets and double greater-than signs, in one reverse pass. */
  method IndexDelimiters(v: Segment) returns (d: Delimiters, inspected: nat)
    ensures d == DelimitersOf(v) && inspected == |v|
  {
    hide Find, Encode;
    var opens := NewUnitSlots(v, '[');
    var closes := NewUnitSlots(v, ']');
    var greater := NewSlots(v, ">>");
    var open: Option<nat> := None;
    var close: Option<nat> := None;
    var double: Option<nat> := None;
    var offset := |v|;
    inspected := 0;
    while offset > 0
      invariant 0 <= offset <= |v| && inspected == |v| - offset
      invariant UnitFilled(opens, v, '[', offset) && open == NextUnit(v, offset, '[')
      invariant UnitFilled(closes, v, ']', offset) && close == NextUnit(v, offset, ']')
      invariant Filled(greater, v, ">>", offset) && double == Find(v, offset, ">>")
    {
      offset := offset - 1;
      inspected := inspected + 1;
      open := SetUnit(opens, v, '[', offset, open);
      close := SetUnit(closes, v, ']', offset, close);
      double := SetNext(greater, v, ">>", offset, double);
    }
    d := Delimiters(CompactOffsets(opens[..]), CompactOffsets(closes[..]), CompactOffsets(greater[..]));
  }

  lemma FindStep(v: Segment, i: nat, p: string)
    requires i < |v| && p != []
    ensures Find(v, i, p) == if StartsWith(v, i, p) then Some(i) else Find(v, i + 1, p)
  {
  }

  function LabelAt(v: Segment, i: nat): nat
    requires i <= |v|
  {
    if Boundary(v, i) then LabelOrSpace(v, i) else |v|
  }

  lemma LabelsEnd(v: Segment)
    ensures LabelAt(v, |v|) == |v| && CharCount(v, |v|) == 0
  {
  }

  lemma LabelStep(v: Segment, i: nat)
    requires i < |v| && Boundary(v, i)
    ensures LabelAt(v, i) == if v[i] == '[' || SpaceAt(v, i) then i else LabelAt(v, Next(v, i))
    ensures forall j :: i < j < Next(v, i) ==> LabelAt(v, j) == |v|
    ensures CharCount(v, i) == 1 + CharCount(v, Next(v, i))
  {
    hide SpaceAt;
    NextIsNext(v, i);
  }

  ghost predicate LabelsFilled(slots: array<nat>, v: Segment, from: nat)
    reads slots
  {
    slots.Length == |v| + 1 && forall i :: 0 <= i <= |v| ==> slots[i] == if from <= i then LabelAt(v, i) else |v|
  }

  method SetLabel(slots: array<nat>, v: Segment, i: nat, last: nat) returns (next: nat)
    requires i < |v| && Boundary(v, i) && LabelsFilled(slots, v, Next(v, i)) && last == LabelAt(v, Next(v, i))
    modifies slots
    ensures LabelsFilled(slots, v, i) && next == LabelAt(v, i)
  {
    hide SpaceAt, LabelAt, CharCount, UnitOk;
    LabelStep(v, i);
    next := if v[i] == '[' || SpaceAt(v, i) then i else last;
    slots[i] := next;
  }

  lemma AllLabels(v: Segment, s: seq<nat>)
    requires |s| == |v| + 1 && forall i :: 0 <= i <= |v| ==> s[i] == LabelAt(v, i)
    ensures s == LabelsOf(v)
  {
  }

  method IndexLabels(v: Segment) returns (labels: seq<nat>, inspected: nat)
    ensures labels == LabelsOf(v) && inspected == CharCount(v, 0)
  {
    hide LabelAt, CharCount, LabelsOf, UnitOk;
    LabelsEnd(v);
    var slots := new nat[|v| + 1](_ => |v|);
    var next := |v|;
    var offset := |v|;
    inspected := 0;
    while offset > 0
      invariant 0 <= offset <= |v| && Boundary(v, offset) && inspected == CharCount(v, offset)
      invariant LabelsFilled(slots, v, offset) && next == LabelAt(v, offset)
    {
      var previous := Previous(v, offset);
      PreviousIsPrevious(v, offset);
      LabelStep(v, previous);
      inspected := inspected + 1;
      next := SetLabel(slots, v, previous, next);
      offset := previous;
    }
    labels := slots[..];
    AllLabels(v, labels);
  }

  ghost predicate MaximalRun(v: Text, start: nat, end: nat) {
    && start < end <= |v| && MarkerUnit(v[start])
    && (forall i :: start <= i < end ==> v[i] == v[start])
    && (0 < start ==> v[start - 1] != v[start])
    && (end < |v| ==> v[end] != v[start])
  }

  lemma {:induction false} RunOffsetIs(v: Text, start: nat, end: nat, i: nat)
    requires MaximalRun(v, start, end) && start <= i < end
    ensures RunOffset(v, i) == i - start
  {
    if start < i {
      RunOffsetIs(v, start, end, i - 1);
    }
  }

  /** Inside a maximal run the pairs are the even positions that have a successor in it. */
  lemma RunPairs(v: Text, start: nat, end: nat)
    requires MaximalRun(v, start, end)
    ensures forall i :: start <= i < end ==> (Paired(v, i) <==> (i - start) % 2 == 0 && i + 1 < end)
  {
    forall i | start <= i < end
      ensures Paired(v, i) <==> (i - start) % 2 == 0 && i + 1 < end
    {
      RunOffsetIs(v, start, end, i);
    }
  }

  method MarkRun(pairs: array<bool>, start: nat, end: nat)
    requires start < end <= pairs.Length && forall i :: start <= i < end ==> !pairs[i]
    modifies pairs
    ensures forall i :: start <= i < end ==> (pairs[i] <==> (i - start) % 2 == 0 && i + 1 < end)
    ensures forall i :: 0 <= i < pairs.Length && !(start <= i < end) ==> pairs[i] == old(pairs[i])
  {
    var pair := start;
    while pair + 1 < end
      invariant start <= pair <= end && (pair - start) % 2 == 0
      invariant forall i :: start <= i < pair ==> (pairs[i] <==> (i - start) % 2 == 0)
      invariant forall i :: 0 <= i < pairs.Length && !(start <= i < pair) ==> pairs[i] == old(pairs[i])
    {
      pairs[pair] := true;
      pair := pair + 2;
    }
  }

  method IndexUnconstrainedPairs(v: Segment) returns (pairs: array<bool>, inspected: nat)
    ensures fresh(pairs) && pairs.Length == |v| + 1 && inspected == |v|
    ensures forall i :: 0 <= i <= |v| ==> (pairs[i] <==> Paired(v, i))
  {
    pairs := new bool[|v| + 1](_ => false);
    inspected := 0;
    var cursor := 0;
    while cursor < |v|
      invariant 0 <= cursor <= |v| && inspected == cursor
      invariant 0 < cursor < |v| && MarkerUnit(v[cursor]) ==> v[cursor - 1] != v[cursor]
      invariant forall i :: 0 <= i < cursor ==> (pairs[i] <==> Paired(v, i))
      invariant forall i :: cursor <= i <= |v| ==> !pairs[i]
    {
      inspected := inspected + 1;
      var marker := v[cursor];
      if !MarkerUnit(marker) {
        cursor := cursor + 1;
        continue;
      }
      var runEnd := cursor + 1;
      while runEnd < |v| && v[runEnd] == marker
        invariant cursor < runEnd <= |v| && inspected == runEnd
        invariant forall i :: cursor <= i < runEnd ==> v[i] == marker
      {
        inspected := inspected + 1;
        runEnd := runEnd + 1;
      }
      RunPairs(v, cursor, runEnd);
      MarkRun(pairs, cursor, runEnd);
      cursor := runEnd;
    }
  }

  // ---------------------------------------------------------------- candidates

  ghost predicate Marks(a: array<bool>, v: Segment, offsets: set<int>)
    reads a
  {
    a.Length == |v| + 1 && forall i :: 0 <= i <= |v| ==> (a[i] <==> i in offsets)
  }

  method MarkOffsets(a: array<bool>, v: Segment, start: nat, end: nat, ghost marked: set<int>)
    requires Marks(a, v, marked) && start <= end <= |v| + 1
    modifies a
    ensures Marks(a, v, marked + Offsets(start, end))
  {
    var i := start;
    while i < end
      invariant start <= i <= end
      invariant Marks(a, v, marked + Offsets(start, i))
    {
      a[i] := true;
      i := i + 1;
    }
  }

  method MarkDelimiters(a: array<bool>, v: Segment, c: Candidate, ghost marked: set<int>)
    requires Marks(a, v, marked) && (c.TypographicQuote? || c.PassthroughAt?)
    requires c.open <= c.contentStart <= |v| && c.contentEnd <= c.end <= |v|
    modifies a
    ensures Marks(a, v, marked + DelimiterOffsets(c))
  {
    MarkOffsets(a, v, c.open, c.contentStart, marked);
    MarkOffsets(a, v, c.contentEnd, c.end, marked + Offsets(c.open, c.contentStart));
  }

  method FindPassthrough(t: WordTable, v: Segment, i: nat, plus: seq<CompactOffsets>) returns (r: Option<Candidate>)
    requires i < |v| && |plus| == 3
    requires IndexesPattern(plus[0], v, "+") && IndexesPattern(plus[1], v, "++") && IndexesPattern(plus[2], v, "+++")
    ensures r == PassthroughFrom(t, v, i)
  {
    hide OpenBoundary, Find, SkipWhile, IndexesPattern, CandidateOk;
    if v[i] == '+' {
      var run := Min(SkipWhile(v, i, Plus) - i, 3);
      if run > 1 || OpenBoundary(t, v, i) {
        var start := i + run;
        PatternAt(plus[run - 1], v, Pluses(run), start);
        var close := plus[run - 1].Get(start);
        if close.Some? && close.value > start {
          return Some(PassthroughAt(i, run, start, close.value, close.value + run));
        }
      }
    }
    return None;
  }

  method PreparseStep(t: WordTable, v: Segment, i: nat, plus: seq<CompactOffsets>,
                      doubleQuote: CompactOffsets, singleQuote: CompactOffsets)
    returns (next: nat, found: Option<Candidate>)
    requires i + 1 < |v| && Boundary(v, i) && |plus| == 3
    requires IndexesPattern(plus[0], v, "+") && IndexesPattern(plus[1], v, "++") && IndexesPattern(plus[2], v, "+++")
    requires IndexesPattern(doubleQuote, v, "`\"") && IndexesPattern(singleQuote, v, "`'")
    ensures (next, found) == PreparseAt(t, v, i)
  {
    hide PassthroughFrom, CandidateOk, OpenBoundary, SkipWhile;
    found := FindPassthrough(t, v, i, plus);
    if found.Some? {
      return found.value.end, found;
    }
    if !QuoteOpens(v, i) {
      return Next(v, i), None;
    }
    var close := if v[i] == '"' then doubleQuote.Get(i + 2) else singleQuote.Get(i + 2);
    assert close == Find(v, i + 2, ['`', v[i]]);
    if close.None? {
      return i + 2, None;
    }
    return close.value + 2, Some(TypographicQuote(i, v[i], i + 2, close.value, close.value + 2));
  }

  lemma PreparseUnfolds(t: WordTable, v: Segment, i: nat)
    requires i + 1 < |v| && Boundary(v, i)
    ensures var (next, found) := PreparseAt(t, v, i); var now, rest := Preparse(t, v, i), Preparse(t, v, next);
      && PreparseSteps(t, v, i) == 1 + PreparseSteps(t, v, next)
      && now.candidates == (if found.Some? then [found.value] + rest.candidates else rest.candidates)
      && now.guarded == (if found.Some? then DelimiterOffsets(found.value) + rest.guarded else rest.guarded)
  {
    hide PreparseAt, CandidateOk, DelimiterOffsets;
  }

  lemma PreparseEnds(t: WordTable, v: Segment, i: nat)
    requires i <= |v| <= i + 1 && Boundary(v, i)
    ensures Preparse(t, v, i) == Preparsed([], {}) && PreparseSteps(t, v, i) == 0
  {
  }

  lemma NothingMarked(v: Segment, a: array<bool>)
    requires a.Length == |v| + 1 && forall i :: 0 <= i <= |v| ==> !a[i]
    ensures Marks(a, v, {})
  {
  }

  method PreparsedCandidates(t: WordTable, v: Segment)
      returns (candidates: seq<Candidate>, guarded: array<bool>, inspected: nat)
    ensures fresh(guarded) && inspected == |v| + PreparseSteps(t, v, 0)
    ensures candidates == Preparse(t, v, 0).candidates && Marks(guarded, v, Preparse(t, v, 0).guarded)
  {
    hide PreparseAt, CandidateOk, Preparse, PreparseSteps, Marks, DelimiterOffsets, IndexesPattern;
    var plus, doubleQuote, singleQuote, scanned := IndexOpeners(v);
    inspected := scanned;
    guarded := new bool[|v| + 1](_ => false);
    NothingMarked(v, guarded);
    candidates := [];
    var cursor := 0;
    ghost var marked: set<int> := {};
    while cursor + 1 < |v|
      invariant cursor <= |v| && Boundary(v, cursor) && Marks(guarded, v, marked)
      invariant |v| + PreparseSteps(t, v, 0) == inspected + PreparseSteps(t, v, cursor)
      invariant Preparse(t, v, 0).candidates == candidates + Preparse(t, v, cursor).candidates
      invariant Preparse(t, v, 0).guarded == marked + Preparse(t, v, cursor).guarded
      decreases |v| - cursor
    {
      inspected := inspected + 1;
      PreparseUnfolds(t, v, cursor);
      var next, found := PreparseStep(t, v, cursor, plus, doubleQuote, singleQuote);
      if found.Some? {
        PreparsedSpans(t, v, cursor);
        MarkDelimiters(guarded, v, found.value, marked);
        ghost var rest := Preparse(t, v, next);
        assert candidates + ([found.value] + rest.candidates) == candidates + [found.value] + rest.candidates;
        candidates := candidates + [found.value];
        marked := marked + DelimiterOffsets(found.value);
      }
      cursor := next;
    }
    PreparseEnds(t, v, cursor);
  }

  lemma PreparsedSpans(t: WordTable, v: Segment, i: nat)
    requires i + 1 < |v| && Boundary(v, i) && PreparseAt(t, v, i).1.Some?
    ensures var c := PreparseAt(t, v, i).1.value;
      (c.TypographicQuote? || c.PassthroughAt?) && c.open <= c.contentStart <= |v| && c.contentEnd <= c.end <= |v|
  {
  }

  method InvalidMonospaceBoundaries(t: WordTable, v: Segment, guarded: array<bool>, ghost marked: set<int>)
    returns (candidates: seq<Candidate>, inspected: nat)
    requires Marks(guarded, v, marked)
    modifies guarded
    ensures inspected == MonospaceSteps(v, 0)
    ensures candidates == Monospace(t, v, 0, None, marked).candidates
    ensures Marks(guarded, v, Monospace(t, v, 0, None, marked).guarded)
  {
    hide IsEscaped, OpenBoundary, CloseBoundary, Valid;
    candidates := [];
    inspected := 0;
    var cursor := 0;
    var pending: Option<nat> := None;
    ghost var now := marked;
    while cursor < |v|
      invariant cursor <= |v| && (pending.Some? ==> pending.value < cursor && v[pending.value] == '`')
      invariant Marks(guarded, v, now) && MonospaceSteps(v, 0) == inspected + MonospaceSteps(v, cursor)
      invariant Monospace(t, v, 0, None, marked).candidates
        == candidates + Monospace(t, v, cursor, pending, now).candidates
      invariant Monospace(t, v, 0, None, marked).guarded == Monospace(t, v, cursor, pending, now).guarded
      decreases |v| - cursor
    {
      inspected := inspected + 1;
      if v[cursor] != '`' {
        cursor := cursor + 1;
        continue;
      }
      var end := SkipWhile(v, cursor, Backtick);
      if end - cursor != 1 {
        pending := None;
        cursor := end;
        continue;
      }
      if pending.None? {
        pending := Some(cursor);
        cursor := end;
        continue;
      }
      var open, close := pending.value, cursor;
      pending := None;
      cursor := end;
      if guarded[open] || guarded[close] || IsEscaped(v, open) || IsEscaped(v, close)
         || (OpenBoundary(t, v, open) && CloseBoundary(t, v, close)) {
        continue;
      }
      guarded[open] := true;
      guarded[close] := true;
      ghost var rest := Monospace(t, v, end, None, now + {open, close});
      assert candidates + ([MonospaceBoundaryAt(open, close + 1)] + rest.candidates)
          == candidates + [MonospaceBoundaryAt(open, close + 1)] + rest.candidates;
      now := now + {open, close};
      candidates := candidates + [MonospaceBoundaryAt(open, close + 1)];
    }
  }

  // ---------------------------------------------------------------- macros and markers

  function FoundBy(visit: Visit): seq<Candidate> {
    if visit.Protect? || visit.Found? then [visit.candidate] else []
  }

  function MisplacedBy(visit: Visit, i: nat): seq<nat> {
    if visit.Misplaced? then [i] else []
  }

  function VisitOf(t: WordTable, v: Segment, i: nat, guarded: set<int>): Visit
    requires i < |v| && Boundary(v, i)
  {
    VisitAt(t, v, i, i in guarded)
  }

  lemma MainScanUnfolds(t: WordTable, v: Segment, i: nat, guarded: set<int>)
    requires i < |v| && Boundary(v, i)
    ensures var visit := VisitOf(t, v, i, guarded);
      var now, rest := MainScan(t, v, i, guarded), MainScan(t, v, Next(v, i), GuardedAfter(visit, i, guarded));
      && now.candidates == FoundBy(visit) + rest.candidates
      && now.misplaced == MisplacedBy(visit, i) + rest.misplaced
      && MainSteps(t, v, i, guarded)
         == VisitSteps(v, i, i in guarded) + MainSteps(t, v, Next(v, i), GuardedAfter(visit, i, guarded))
  {
    hide VisitAt, CandidateOk, Increasing, VisitSteps, Offsets;
  }

  /** Visits one character of the scan. */
  method VisitCharacter(t: WordTable, v: Segment, guarded: array<bool>, open: nat, ghost marked: set<int>)
    returns (found: seq<Candidate>, misplaced: seq<nat>, inspected: nat)
    requires Marks(guarded, v, marked) && open < |v| && Boundary(v, open)
    modifies guarded
    ensures Marks(guarded, v, GuardedAfter(VisitOf(t, v, open, marked), open, marked))
    ensures found == FoundBy(VisitOf(t, v, open, marked)) && misplaced == MisplacedBy(VisitOf(t, v, open, marked), open)
    ensures inspected == VisitSteps(v, open, open in marked)
  {
    hide VisitAt, CandidateOk, Increasing, VisitSteps, Offsets;
    inspected := VisitSteps(v, open, guarded[open]);
    var visit := VisitAt(t, v, open, guarded[open]);
    found, misplaced := [], [];
    match visit {
      case Skip =>
      case Protect(c, end) =>
        MarkOffsets(guarded, v, open, end, marked);
        found := [c];
      case Found(c) => found := [c];
      case Misplaced => misplaced := [open];
    }
  }

  method ScanCandidates(t: WordTable, v: Segment, guarded: array<bool>, ghost marked: set<int>)
    returns (candidates: seq<Candidate>, misplaced: seq<nat>, inspected: nat)
    requires Marks(guarded, v, marked)
    modifies guarded
    ensures inspected == MainSteps(t, v, 0, marked)
    ensures Scanned(candidates, misplaced) == MainScan(t, v, 0, marked)
  {
    hide VisitOf, CandidateOk, MainScan, Increasing, UnitOk, MainSteps, VisitSteps, GuardedAfter, FoundBy,
      MisplacedBy, Marks;
    candidates, misplaced, inspected := [], [], 0;
    var open: nat := 0;
    ghost var now := marked;
    while open < |v|
      invariant open <= |v| && Boundary(v, open) && Marks(guarded, v, now)
      invariant MainScan(t, v, 0, marked).candidates == candidates + MainScan(t, v, open, now).candidates
      invariant MainSteps(t, v, 0, marked) == inspected + MainSteps(t, v, open, now)
      invariant MainScan(t, v, 0, marked).misplaced == misplaced + MainScan(t, v, open, now).misplaced
      decreases |v| - open
    {
      MainScanUnfolds(t, v, open, now);
      var found, missed, steps := VisitCharacter(t, v, guarded, open, now);
      candidates, misplaced, inspected := candidates + found, misplaced + missed, inspected + steps;
      now := GuardedAfter(VisitOf(t, v, open, now), open, now);
      open := Next(v, open);
    }
    ScanEnds(t, v, now);
  }

  lemma ScanEnds(t: WordTable, v: Segment, guarded: set<int>)
    ensures MainScan(t, v, |v|, guarded) == Scanned([], []) && MainSteps(t, v, |v|, guarded) == 0
  {
  }

  // ---------------------------------------------------------------- closers

  type MarkerKey = (char, MarkerForm)

  predicate KeyOk(k: MarkerKey) {
    MarkerUnit(k.0) || (k.1.Constrained? && k.0 in "~^{")
  }

  function Lookup(last: map<MarkerKey, nat>, k: MarkerKey): Option<nat> {
    if k in last then Some(last[k]) else None
  }

  /** The map holds, for every marker and form, the nearest closer at or after `i`. */
  ghost predicate Nearest(t: WordTable, v: Segment, last: map<MarkerKey, nat>, i: nat) {
    forall k: MarkerKey {:trigger Lookup(last, k)} :: KeyOk(k) ==> Lookup(last, k) == NextCloser(t, v, k.0, k.1, i)
  }

  lemma {:induction false} NoCloserBetween(t: WordTable, v: Segment, marker: char, form: MarkerForm, i: nat, j: nat)
    requires i <= j <= |v| && forall k :: i <= k < j ==> Continuation(v[k])
    ensures NextCloser(t, v, marker, form, i) == NextCloser(t, v, marker, form, j)
    decreases j - i
  {
    hide CloseBoundary;
    if i < j {
      NoCloserBetween(t, v, marker, form, i + 1, j);
    }
  }

  /** The closers that the unit at `i` adds to those after it. */
  function RecordClosers(t: WordTable, v: Segment, paired: bool, last: map<MarkerKey, nat>, i: nat): map<MarkerKey, nat>
    requires i < |v| && Boundary(v, i)
  {
    var c := v[i];
    var last := if paired then last[(c, Unconstrained) := i] else last;
    if MarkerUnit(c) then if CloseBoundary(t, v, i) then last[(c, Constrained) := i] else last
    else if c in "~^" then last[(c, Constrained) := i]
    else if c == '}' then last[('{', Constrained) := i]
    else last
  }

  lemma NearestStep(t: WordTable, v: Segment, last: map<MarkerKey, nat>, i: nat, paired: bool)
    requires i < |v| && Boundary(v, i) && Nearest(t, v, last, i + 1) && paired == Paired(v, i)
    ensures Nearest(t, v, RecordClosers(t, v, paired, last, i), i)
  {
    hide CloseBoundary;
    var now := RecordClosers(t, v, paired, last, i);
    forall k: MarkerKey | KeyOk(k)
      ensures Lookup(now, k) == NextCloser(t, v, k.0, k.1, i)
    {
      assert Lookup(last, k) == NextCloser(t, v, k.0, k.1, i + 1);
    }
  }

  ghost predicate MarkersDistinct(s: seq<Candidate>) {
    forall i, j :: 0 <= i < j < |s| && s[i].Marker? && s[j].Marker? ==> s[i].open != s[j].open
  }

  ghost predicate MarkersInside(v: Segment, s: seq<Candidate>) {
    forall c :: c in s && c.Marker? ==> c.open < |v| && Boundary(v, c.open) && KeyOk((c.marker, c.form))
  }

  lemma NearestBetween(t: WordTable, v: Segment, last: map<MarkerKey, nat>, i: nat, j: nat)
    requires i < j <= |v| && Nearest(t, v, last, j) && forall k :: i < k < j ==> Continuation(v[k])
    ensures Nearest(t, v, last, i + 1)
  {
    hide NextCloser;
    forall k: MarkerKey | KeyOk(k)
      ensures Lookup(last, k) == NextCloser(t, v, k.0, k.1, i + 1)
    {
      NoCloserBetween(t, v, k.0, k.1, i + 1, j);
    }
  }

  lemma NearestLookup(t: WordTable, v: Segment, last: map<MarkerKey, nat>, i: nat, k: MarkerKey)
    requires Nearest(t, v, last, i) && KeyOk(k)
    ensures Lookup(last, k) == NextCloser(t, v, k.0, k.1, i)
  {
  }

  lemma NothingAtEnd(t: WordTable, v: Segment)
    ensures Nearest(t, v, map[], |v|) && CharCount(v, |v|) == 0
  {
  }

  /** The recorded opener of every position that has one. */
  ghost predicate OpenersOk(v: Segment, openers: seq<Option<MarkerKey>>) {
    |openers| == |v| + 1 && forall i :: 0 <= i <= |v| && openers[i].Some? ==> KeyOk(openers[i].value)
  }

  /** The openers from `from` on have their nearest later closers. */
  ghost predicate ClosersFrom(t: WordTable, v: Segment, openers: seq<Option<MarkerKey>>,
      closers: array<Option<nat>>, from: nat)
    requires OpenersOk(v, openers)
    reads closers
  {
    closers.Length == |v| + 1 && forall i: nat :: from <= i < |v| && Boundary(v, i) && openers[i].Some? ==>
      closers[i] == NextCloser(t, v, openers[i].value.0, openers[i].value.1, i + 1)
  }

  method SetCloser(t: WordTable, v: Segment, openers: seq<Option<MarkerKey>>, closers: array<Option<nat>>,
                   last: map<MarkerKey, nat>, i: nat, ghost after: nat)
    requires OpenersOk(v, openers) && i < after <= |v| && ClosersFrom(t, v, openers, closers, after)
    requires Nearest(t, v, last, i + 1) && forall k :: i < k < after ==> !Boundary(v, k)
    modifies closers
    ensures ClosersFrom(t, v, openers, closers, i)
  {
    hide Nearest, NextCloser, UnitOk, Valid;
    if openers[i].Some? {
      NearestLookup(t, v, last, i + 1, openers[i].value);
      closers[i] := Lookup(last, openers[i].value);
    }
  }

  lemma NoneToClose(t: WordTable, v: Segment, openers: seq<Option<MarkerKey>>, closers: array<Option<nat>>)
    requires OpenersOk(v, openers) && closers.Length == |v| + 1
    ensures ClosersFrom(t, v, openers, closers, |v|)
  {
  }

  /** One reverse pass over the characters gives every opener its nearest later closer. */
  method ClosersOf(t: WordTable, v: Segment, pairs: array<bool>, openers: seq<Option<MarkerKey>>)
    returns (closers: array<Option<nat>>, inspected: nat)
    requires pairs.Length == |v| + 1 && forall i :: 0 <= i <= |v| ==> (pairs[i] <==> Paired(v, i))
    requires OpenersOk(v, openers)
    ensures fresh(closers) && ClosersFrom(t, v, openers, closers, 0) && inspected == CharCount(v, 0)
  {
    closers := new Option<nat>[|v| + 1](_ => None);
    inspected := 0;
    var last: map<MarkerKey, nat> := map[];
    var offset := |v|;
    hide Nearest, NextCloser, RecordClosers, UnitOk, ClosersFrom, CharCount, Paired;
    NothingAtEnd(t, v);
    NoneToClose(t, v, openers, closers);
    while offset > 0
      invariant 0 <= offset <= |v| && Boundary(v, offset) && inspected == CharCount(v, offset)
        && Nearest(t, v, last, offset)
      invariant ClosersFrom(t, v, openers, closers, offset)
    {
      var previous := Previous(v, offset);
      PreviousIsPrevious(v, offset);
      LabelStep(v, previous);
      inspected := inspected + 1;
      NearestBetween(t, v, last, previous, offset);
      SetCloser(t, v, openers, closers, last, previous, offset);
      NearestStep(t, v, last, previous, pairs[previous]);
      last := RecordClosers(t, v, pairs[previous], last, previous);
      offset := previous;
    }
  }

  /** Every marker candidate receives its nearest later closer; the others are unchanged. */
  method IndexMarkerClosers(t: WordTable, v: Segment, pairs: array<bool>, candidates: seq<Candidate>)
    returns (r: seq<Candidate>, inspected: nat)
    requires pairs.Length == |v| + 1 && forall i :: 0 <= i <= |v| ==> (pairs[i] <==> Paired(v, i))
    requires MarkersDistinct(candidates) && MarkersInside(v, candidates)
    ensures r == ClosedAll(t, v, candidates) && inspected == 2 * |candidates| + CharCount(v, 0)
  {
    var openerAt := new Option<MarkerKey>[|v| + 1](_ => None);
    inspected := RecordOpeners(v, candidates, openerAt);
    var closerAt, chars := ClosersOf(t, v, pairs, openerAt[..]);
    inspected := inspected + chars;
    r := [];
    for i := 0 to |candidates|
      invariant inspected == |candidates| + CharCount(v, 0) + i
      invariant |r| == i && forall k :: 0 <= k < i ==> r[k] == Closed(t, v, candidates[k])
    {
      inspected := inspected + 1;
      var c := candidates[i];
      assert c in candidates;
      r := r + [if c.Marker? then c.(close := closerAt[c.open]) else c];
    }
  }

  method RecordOpeners(v: Segment, candidates: seq<Candidate>, openerAt: array<Option<MarkerKey>>)
      returns (inspected: nat)
    requires openerAt.Length == |v| + 1 && MarkersDistinct(candidates) && MarkersInside(v, candidates)
    requires OpenersOk(v, openerAt[..])
    modifies openerAt
    ensures forall c :: c in candidates && c.Marker? ==> openerAt[c.open] == Some((c.marker, c.form))
    ensures OpenersOk(v, openerAt[..]) && inspected == |candidates|
  {
    inspected := 0;
    for i := 0 to |candidates|
      invariant inspected == i
      invariant forall k :: 0 <= k < i && candidates[k].Marker? ==>
        openerAt[candidates[k].open] == Some((candidates[k].marker, candidates[k].form))
      invariant OpenersOk(v, openerAt[..])
    {
      inspected := inspected + 1;
      if candidates[i].Marker? {
        assert candidates[i] in candidates;
        openerAt[candidates[i].open] := Some((candidates[i].marker, candidates[i].form));
      }
    }
  }

  // ---------------------------------------------------------------- the whole index

  lemma CandidatesForClosers(t: WordTable, v: Segment, a: seq<Candidate>, b: seq<Candidate>, c: seq<Candidate>)
    requires Markerless(a) && Markerless(b) && Increasing(c, 0)
    requires forall x :: x in c ==> CandidateOk(t, v, Closed(t, v, x))
    ensures MarkersDistinct(a + b + c) && MarkersInside(v, a + b + c)
  {
    var all := a + b + c;
    forall i | 0 <= i < |a + b|
      ensures !all[i].Marker?
    {
      assert all[i] in a || all[i] in b;
    }
    assert forall i :: |a + b| <= i < |all| ==> all[i] == c[i - |a + b|] && all[i] in c;
    forall x | x in all && x.Marker?
      ensures x.open < |v| && Boundary(v, x.open) && KeyOk((x.marker, x.form))
    {
      assert x in c;
      var m := Closed(t, v, x);
      assert CandidateOk(t, v, m) && m.marker == x.marker && m.form == x.form;
      AsciiIsWhole(v, x.open);
    }
  }

  method BuildIndex(t: WordTable, v: Segment) returns (ix: Index)
    ensures ix.candidates == Candidates(t, v)
    ensures ix.delimiters == DelimitersOf(v) && ix.labels == LabelsOf(v)
    ensures ix.inspected == Effort(t, v) <= 12 * |v|
  {
    var preparsed, guarded, n1 := PreparsedCandidates(t, v);
    var monospace, n2 := InvalidMonospaceBoundaries(t, v, guarded, Preparse(t, v, 0).guarded);
    var pairs, n3 := IndexUnconstrainedPairs(v);
    var labels, n4 := IndexLabels(v);
    var scanned, misplaced,
      n5 := ScanCandidates(t, v, guarded, Monospace(t, v, 0, None, Preparse(t, v, 0).guarded).guarded);
    CandidatesForClosers(t, v, preparsed, monospace, scanned);
    var closed, n6 := IndexMarkerClosers(t, v, pairs, preparsed + monospace + scanned);
    var delimiters, n7 := IndexDelimiters(v);
    EffortIsLinear(t, v);
    ix := Index(SortByOpen(closed + Misplacements(misplaced)), delimiters, labels, n1 + n2 + n3 + n4 + n5 + n6 + n7);
  }
}
