/** The candidate positions of a segment, defined by forward search. The array-based
    index of `InlineIndex` is proved to list exactly these. */
module InlineCandidates {
  import opened Text
  import opened InlineModel
  import opened InlineGrammar
  import opened InlineRecognition

  /** What a candidate promises about the text at its offsets. */
  ghost predicate CandidateOk(t: WordTable, v: Segment, c: Candidate) {
    match c
    case EscapedAnchor(s) => s + 1 < |v| && v[s] == '\\' && v[s + 1] == '['
    case MacroAt(o) => o < |v| && Boundary(v, o) && MacroOpens(v, o)
    case MacroBoundaryAt(o) => o < |v| && Boundary(v, o)
    case Marker(o, marker, form, close) => MarkerOk(t, v, o, marker, form, close)
    case MonospaceBoundaryAt(o, e) => o + 1 < e <= |v| && v[o] == '`' && v[e - 1] == '`'
    case TypographicQuote(o, q, s, e, end) =>
      && q in "'\"" && s == o + 2 <= e && end == e + 2
      && StartsWith(v, o, [q, '`']) && StartsWith(v, e, ['`', q])
    case PassthroughAt(o, w, s, e, end) =>
      && 1 <= w <= 3 && s == o + w < e && end == e + w
      && StartsWith(v, o, Pluses(w)) && Find(v, s, Pluses(w)) == Some(e)
  }

  ghost predicate AllOk(t: WordTable, v: Segment, s: seq<Candidate>) {
    forall c :: c in s ==> CandidateOk(t, v, c)
  }

  predicate Plus(c: char) { c == '+' }

  function Pluses(width: nat): string
    requires 1 <= width <= 3
  {
    if width == 1 then "+" else if width == 2 then "++" else "+++"
  }

  // ---------------------------------------------------------------- quotes and passthroughs

  lemma PlusRunStarts(v: Segment, i: nat, w: nat)
    requires i <= |v| && 1 <= w <= 3 && i + w <= SkipWhile(v, i, Plus)
    ensures StartsWith(v, i, Pluses(w))
  {
    assert forall j :: i <= j < i + w ==> v[j] == '+';
  }

  /** The passthrough span of a run of plus signs, up to the next run as long. */
  function ClosePassthrough(t: WordTable, v: Segment, i: nat, run: nat): (r: Option<Candidate>)
    requires i <= |v| && 1 <= run <= 3 && i + run <= SkipWhile(v, i, Plus)
    ensures r.Some? ==>
      r.value.PassthroughAt? && r.value.open == i && i < r.value.end <= |v| && Boundary(v, r.value.end)
    ensures r.Some? ==> CandidateOk(t, v, r.value)
  {
    hide SkipWhile, Valid, UnitOk, StartsWith, Find;
    var close := Find(v, i + run, Pluses(run));
    PlusRunStarts(v, i, run);
    if close.Some? && close.value > i + run then
      StartsAscii(v, close.value, Pluses(run));
      Some(PassthroughAt(i, run, i + run, close.value, close.value + run))
    else None
  }

  /** The passthrough span that opens at `i`. */
  function PassthroughFrom(t: WordTable, v: Segment, i: nat): (r: Option<Candidate>)
    requires i < |v|
    ensures r.Some? ==> r.value.PassthroughAt? && r.value.open == i && CandidateOk(t, v, r.value)
    ensures r.Some? ==> i < r.value.end <= |v| && Boundary(v, r.value.end)
  {
    hide OpenBoundary, SkipWhile;
    var run := Min(SkipWhile(v, i, Plus) - i, 3);
    if v[i] == '+' && (run > 1 || OpenBoundary(t, v, i)) then ClosePassthrough(t, v, i, run) else None
  }

  predicate QuoteOpens(v: Text, i: nat) {
    i + 1 < |v| && v[i] in "'\"" && v[i + 1] == '`'
  }

  /** The typographic quotation that opens at `i`. */
  function QuoteFrom(t: WordTable, v: Segment, i: nat): (r: Option<Candidate>)
    requires QuoteOpens(v, i)
    ensures r.Some? ==> r.value.TypographicQuote? && r.value.open == i && CandidateOk(t, v, r.value)
    ensures r.Some? ==> i < r.value.end <= |v| && Boundary(v, r.value.end)
  {
    match Find(v, i + 2, ['`', v[i]])
    case None => None
    case Some(e) =>
      assert v[i..i + 2] == [v[i], '`'];
      StartsAscii(v, e, ['`', v[i]]);
      Some(TypographicQuote(i, v[i], i + 2, e, e + 2))
  }

  function Offsets(from: nat, end: nat): (r: set<int>)
    ensures forall i :: i in r <==> from <= i < end
    decreases end - from
  {
    if end <= from then {} else {from} + Offsets(from + 1, end)
  }

  /** The offsets of the delimiters of a quotation or passthrough. */
  function DelimiterOffsets(c: Candidate): set<int>
    requires c.TypographicQuote? || c.PassthroughAt?
  {
    Offsets(c.open, c.contentStart) + Offsets(c.contentEnd, c.end)
  }

  /** The next offset the preparsing scan visits, and the candidate found at `i`. */
  function PreparseAt(t: WordTable, v: Segment, i: nat): (r: (nat, Option<Candidate>))
    requires i + 1 < |v| && Boundary(v, i)
    ensures i < r.0 <= |v| && Boundary(v, r.0)
    ensures r.1.Some? ==> (r.1.value.TypographicQuote? || r.1.value.PassthroughAt?)
    ensures r.1.Some? ==> CandidateOk(t, v, r.1.value) && r.1.value.open == i && r.1.value.end == r.0
  {
    var pass := PassthroughFrom(t, v, i);
    if pass.Some? then
      (pass.value.end, pass)
    else if !QuoteOpens(v, i) then (Next(v, i), None)
    else
      var quote := QuoteFrom(t, v, i);
      if quote.Some? then
        (quote.value.end, quote)
      else
        AsciiIsWhole(v, i + 1);
        (i + 2, None)
  }

  datatype Preparsed = Preparsed(candidates: seq<Candidate>, guarded: set<int>)

  function Preparse(t: WordTable, v: Segment, i: nat): (r: Preparsed)
    requires i <= |v| && Boundary(v, i)
    ensures AllOk(t, v, r.candidates) && Markerless(r.candidates)
    decreases |v| - i
  {
    if |v| <= i + 1 then Preparsed([], {})
    else
      var (next, found) := PreparseAt(t, v, i);
      var rest := Preparse(t, v, next);
      match found
      case None => rest
      case Some(c) => Preparsed([c] + rest.candidates, DelimiterOffsets(c) + rest.guarded)
  }

  // ---------------------------------------------------------------- invalid monospace spans

  predicate Backtick(c: char) { c == '`' }

  predicate InvalidMonospace(t: WordTable, v: Segment, open: nat, close: nat, guarded: set<int>)
    requires open < close < |v| && v[open] == '`' && v[close] == '`'
  {
    && open !in guarded && close !in guarded
    && !IsEscaped(v, open) && !IsEscaped(v, close)
    && !(OpenBoundary(t, v, open) && CloseBoundary(t, v, close))
  }

  /** Pairs single backticks from left to right; a longer run drops the pending one. */
  function Monospace(t: WordTable, v: Segment, i: nat, pending: Option<nat>, guarded: set<int>): (r: Preparsed)
    requires i <= |v|
    requires pending.Some? ==> pending.value < i && v[pending.value] == '`'
    ensures AllOk(t, v, r.candidates) && Markerless(r.candidates)
    decreases |v| - i
  {
    if i == |v| then Preparsed([], guarded)
    else if v[i] != '`' then Monospace(t, v, i + 1, pending, guarded)
    else
      var end := SkipWhile(v, i, Backtick);
      if end - i != 1 then Monospace(t, v, end, None, guarded)
      else if pending.None? then Monospace(t, v, end, Some(i), guarded)
      else if InvalidMonospace(t, v, pending.value, i, guarded) then
        var rest := Monospace(t, v, end, None, guarded + {pending.value, i});
        Preparsed([MonospaceBoundaryAt(pending.value, i + 1)] + rest.candidates, rest.guarded)
      else Monospace(t, v, end, None, guarded)
  }

  // ---------------------------------------------------------------- macros and markers

  datatype Visit = Skip | Protect(candidate: Candidate, end: nat) | Found(candidate: Candidate) | Misplaced

  predicate EscapesAnchor(v: Segment, i: nat) {
    (StartsWith(v, i, "\\[[") || StartsWith(v, i, "\\[#")) && !IsEscaped(v, i)
  }

  function EscapedAnchorEnd(v: Segment, i: nat): (r: nat)
    requires i <= |v|
    ensures i <= r <= |v|
  {
    if StartsWith(v, i, "\\[[") then
      (match Find(v, i, "]]") case None => |v| case Some(c) => c + 2)
    else
      (match NextUnit(v, i, ']') case None => |v| case Some(c) => c + 1)
  }

  predicate MarkerOpens(t: WordTable, v: Segment, i: nat)
    requires i < |v|
  {
    || v[i] == '{'
    || (v[i] in "^~" && (AsciiIsWhole(v, i); i + 1 < |v| && !SpaceAt(v, i + 1)))
    || (MarkerUnit(v[i]) && OpenBoundary(t, v, i))
  }

  /** A marker candidate with the nearest later closer of its form; others unchanged. */
  function Closed(t: WordTable, v: Segment, c: Candidate): (r: Candidate)
    ensures r.open == c.open
  {
    if c.Marker? then c.(close := NextCloser(t, v, c.marker, c.form, c.open + 1)) else c
  }

  lemma EscapedAnchorOk(t: WordTable, v: Segment, i: nat)
    requires EscapesAnchor(v, i)
    ensures CandidateOk(t, v, EscapedAnchor(i))
  {
    assert v[i..i + 3][0] == v[i] && v[i..i + 3][1] == v[i + 1];
  }

  lemma MarkerCandidateOk(t: WordTable, v: Segment, i: nat, form: MarkerForm)
    requires i < |v| && v[i] in "`*_#^~{" && (form.Unconstrained? ==> Paired(v, i))
    ensures CandidateOk(t, v, Closed(t, v, Marker(i, v[i], form, None)))
  {
  }

  /** What the main scan finds at the character boundary `i`. */
  function VisitAt(t: WordTable, v: Segment, i: nat, guarded: bool): (r: Visit)
    requires i < |v| && Boundary(v, i)
    ensures r.Protect? || r.Found? ==> r.candidate.open == i && CandidateOk(t, v, Closed(t, v, r.candidate))
    ensures r.Protect? ==> i <= r.end <= |v|
  {
    hide MacroCandidate, OpenBoundary, NextCloser, SpaceAt, Find, EscapesAnchor, MacroBoundaryBefore;
    if guarded then Skip
    else if EscapesAnchor(v, i) then
      EscapedAnchorOk(t, v, i);
      Protect(EscapedAnchor(i), EscapedAnchorEnd(v, i))
    else if StartsWith(v, i, "<<") || StartsWith(v, i, "[[") || (MacroBoundaryBefore(v, i) && MacroCandidate(v, i)) then
      Found(MacroAt(i))
    else if MacroCandidate(v, i) && !IsEscaped(v, i) then Misplaced
    else if MarkerUnit(v[i]) && Paired(v, i) then
      MarkerCandidateOk(t, v, i, Unconstrained);
      Found(Marker(i, v[i], Unconstrained, None))
    else if MarkerOpens(t, v, i) then
      MarkerCandidateOk(t, v, i, Constrained);
      Found(Marker(i, v[i], Constrained, None))
    else Skip
  }

  datatype Scanned = Scanned(candidates: seq<Candidate>, misplaced: seq<nat>)

  /** An escaped anchor hides everything up to its closing bracket from the scan. */
  function GuardedAfter(visit: Visit, i: nat, guarded: set<int>): set<int> {
    if visit.Protect? then guarded + Offsets(i, visit.end) else guarded
  }

  function Prepended(visit: Visit, i: nat, rest: Scanned): Scanned {
    match visit
    case Skip => rest
    case Misplaced => rest.(misplaced := [i] + rest.misplaced)
    case Protect(c, _) => rest.(candidates := [c] + rest.candidates)
    case Found(c) => rest.(candidates := [c] + rest.candidates)
  }

  /** Candidates in strictly increasing order from `i` on. */
  ghost predicate Increasing(s: seq<Candidate>, i: nat) {
    && (forall k :: 0 <= k < |s| ==> i <= s[k].open)
    && (forall k, m :: 0 <= k < m < |s| ==> s[k].open < s[m].open)
  }

  function MainScan(t: WordTable, v: Segment, i: nat, guarded: set<int>): (r: Scanned)
    requires i <= |v| && Boundary(v, i)
    ensures Increasing(r.candidates, i)
    ensures forall c :: c in r.candidates ==> CandidateOk(t, v, Closed(t, v, c))
    ensures forall k :: 0 <= k < |r.misplaced| ==> r.misplaced[k] < |v| && Boundary(v, r.misplaced[k])
    decreases |v| - i
  {
    if i == |v| then Scanned([], [])
    else
      var visit := VisitAt(t, v, i, i in guarded);
      Prepended(visit, i, MainScan(t, v, Next(v, i), GuardedAfter(visit, i, guarded)))
  }

  // ---------------------------------------------------------------- the ordered list

  ghost predicate SortedByOpen(s: seq<Candidate>) {
    s == [] || ((forall x :: x in s[1..] ==> s[0].open <= x.open) && SortedByOpen(s[1..]))
  }

  function InsertByOpen(c: Candidate, s: seq<Candidate>): (r: seq<Candidate>)
    ensures |r| == |s| + 1 && forall x :: x in r <==> x == c || x in s
    ensures SortedByOpen(s) ==> SortedByOpen(r)
  {
    if s == [] || c.open <= s[0].open then
      assert ([c] + s)[1..] == s;
      assert forall x :: x in s ==> x == s[0] || x in s[1..];
      [c] + s
    else
      var rest := InsertByOpen(c, s[1..]);
      assert forall x :: x in s <==> x == s[0] || x in s[1..];
      assert ([s[0]] + rest)[1..] == rest;
      [s[0]] + rest
  }

  /** Stable sort by opening offset. */
  function SortByOpen(s: seq<Candidate>): (r: seq<Candidate>)
    ensures |r| == |s| && SortedByOpen(r) && forall x :: x in r <==> x in s
  {
    if s == [] then []
    else
      assert forall x :: x in s <==> x == s[0] || x in s[1..];
      InsertByOpen(s[0], SortByOpen(s[1..]))
  }

  function Misplacements(s: seq<nat>): seq<Candidate> {
    seq(|s|, i requires 0 <= i < |s| => MacroBoundaryAt(s[i]))
  }

  function ClosedAll(t: WordTable, v: Segment, s: seq<Candidate>): (r: seq<Candidate>)
    ensures |r| == |s|
  {
    seq(|s|, i requires 0 <= i < |s| => Closed(t, v, s[i]))
  }

  /** Every candidate of the segment, ordered by opening offset. */
  function Candidates(t: WordTable, v: Segment): (r: seq<Candidate>)
    ensures AllOk(t, v, r) && SortedByOpen(r)
  {
    var preparsed := Preparse(t, v, 0);
    var monospace := Monospace(t, v, 0, None, preparsed.guarded);
    var scanned := MainScan(t, v, 0, monospace.guarded);
    var all := preparsed.candidates + monospace.candidates + scanned.candidates;
    AllClose(t, v, preparsed.candidates, monospace.candidates, scanned.candidates);
    SortByOpen(ClosedAll(t, v, all) + Misplacements(scanned.misplaced))
  }

  ghost predicate Markerless(s: seq<Candidate>) {
    forall c :: c in s ==> !c.Marker?
  }

  lemma AllClose(t: WordTable, v: Segment, a: seq<Candidate>, b: seq<Candidate>, c: seq<Candidate>)
    requires AllOk(t, v, a) && AllOk(t, v, b) && Markerless(a) && Markerless(b)
    requires forall x :: x in c ==> CandidateOk(t, v, Closed(t, v, x))
    ensures AllOk(t, v, ClosedAll(t, v, a + b + c))
  {
    hide CandidateOk;
    var all := a + b + c;
    forall x | x in ClosedAll(t, v, all) ensures CandidateOk(t, v, x) {
      var i :| 0 <= i < |all| && x == Closed(t, v, all[i]);
      assert all[i] in a || all[i] in b || all[i] in c;
    }
  }
}
