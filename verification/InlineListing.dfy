/** Which places of a text are candidates: all that open something, unless something else hides them. */
module InlineListing {
  import opened Text
  import opened InlineModel
  import opened InlineGrammar
  import opened InlineRecognition
  import opened InlineCandidates

  /** The delimiters of quotations and passthroughs, and backticks that pair at invalid places. */
  function Guarded(t: WordTable, v: Segment): set<int> {
    Monospace(t, v, 0, None, Preparse(t, v, 0).guarded).guarded
  }

  /** Nothing hides the place: it is no such delimiter, and in no escaped anchor. */
  ghost predicate Free(t: WordTable, v: Segment, i: nat)
    requires i < |v|
  {
    && Boundary(v, i) && i !in Guarded(t, v)
    && forall j :: 0 <= j <= i && EscapesAnchor(v, j) ==> EscapedAnchorEnd(v, j) <= i
  }

  // ---------------------------------------------------------------- the list holds what the passes find

  lemma ListHolds(t: WordTable, v: Segment, x: Candidate)
    requires x in Preparse(t, v, 0).candidates || x in Monospace(t, v, 0, None, Preparse(t, v, 0).guarded).candidates
      || x in MainScan(t, v, 0, Guarded(t, v)).candidates
    ensures Closed(t, v, x) in Candidates(t, v)
  {
    hide Preparse, Monospace, MainScan, CandidateOk, Closed;
    var a, b, c := Preparse(t, v, 0).candidates, Monospace(t, v, 0, None, Preparse(t, v, 0).guarded).candidates,
      MainScan(t, v, 0, Guarded(t, v)).candidates;
    var all := a + b + c;
    assert x in all;
    var i :| 0 <= i < |all| && all[i] == x;
    assert ClosedAll(t, v, all)[i] == Closed(t, v, x);
  }

  /** What the main scan finds at a place that nothing hides. */
  lemma {:induction false} ScanReaches(t: WordTable, v: Segment, at: nat, i: nat, guarded: set<int>)
    requires at <= i < |v| && Boundary(v, at) && Boundary(v, i) && i !in guarded
    requires forall j :: at <= j <= i && EscapesAnchor(v, j) ==> EscapedAnchorEnd(v, j) <= i
    ensures var visit := VisitAt(t, v, i, false);
      visit.Found? ==> visit.candidate in MainScan(t, v, at, guarded).candidates
    decreases i - at
  {
    hide VisitAt, CandidateOk, EscapesAnchor, EscapedAnchorEnd, Closed;
    if at < i {
      var visit, next := VisitAt(t, v, at, at in guarded), Next(v, at);
      NextIsNext(v, at);
      ProtectIs(t, v, at, at in guarded);
      ScanReaches(t, v, next, i, GuardedAfter(visit, at, guarded));
    }
  }

  lemma ProtectIs(t: WordTable, v: Segment, i: nat, guarded: bool)
    requires i < |v| && Boundary(v, i)
    ensures var visit := VisitAt(t, v, i, guarded);
      visit.Protect? ==> EscapesAnchor(v, i) && visit.end == EscapedAnchorEnd(v, i)
  {
    hide CandidateOk, MacroCandidate, OpenBoundary, Find, StartsWith;
  }

  lemma NoAnchorAt(t: WordTable, v: Segment, i: nat)
    requires i < |v| && Free(t, v, i)
    ensures !EscapesAnchor(v, i)
  {
    hide Guarded;
  }

  lemma StartIsBoundary(v: Segment)
    ensures Boundary(v, 0)
  {
  }

  /** A place that a macro may start at is a candidate. */
  lemma MacroListed(t: WordTable, v: Segment, i: nat)
    requires i < |v| && Free(t, v, i)
    requires StartsWith(v, i, "<<") || StartsWith(v, i, "[[") || (MacroBoundaryBefore(v, i) && MacroCandidate(v, i))
    ensures MacroAt(i) in Candidates(t, v)
  {
    hide Guarded, MainScan, CandidateOk, MacroCandidate, MacroBoundaryBefore, StartsWith, EscapesAnchor,
      EscapedAnchorEnd, Candidates,
      OpenBoundary;
    NoAnchorAt(t, v, i);
    assert VisitAt(t, v, i, false) == Found(MacroAt(i));
    ScanReaches(t, v, 0, i, Guarded(t, v));
    StartIsBoundary(v);
    ListHolds(t, v, MacroAt(i));
  }

  /** So is one where a doubled marker starts, unless a macro goes first. */
  lemma DoubledListed(t: WordTable, v: Segment, i: nat)
    requires i < |v| && Free(t, v, i) && !StartsWith(v, i, "<<") && !StartsWith(v, i, "[[") && !MacroCandidate(v, i)
    requires v[i] in "`*_#" && Paired(v, i)
    ensures Marker(i, v[i], Unconstrained, NextCloser(t, v, v[i], Unconstrained, i + 1)) in Candidates(t, v)
  {
    hide Guarded, MainScan, CandidateOk, MacroCandidate, MacroBoundaryBefore, StartsWith, EscapesAnchor,
      EscapedAnchorEnd, Candidates,
      OpenBoundary, NextCloser, Paired;
    NoAnchorAt(t, v, i);
    var found := Marker(i, v[i], Unconstrained, None);
    assert VisitAt(t, v, i, false) == Found(found);
    ScanReaches(t, v, 0, i, Guarded(t, v));
    StartIsBoundary(v);
    ListHolds(t, v, found);
  }

  /** So is one where a single marker opens: a brace, a caret or tilde before a character that is no
      white space, any other marker at an open boundary. */
  lemma SingleListed(t: WordTable, v: Segment, i: nat)
    requires i < |v| && Free(t, v, i) && !StartsWith(v, i, "<<") && !StartsWith(v, i, "[[") && !MacroCandidate(v, i)
    requires || v[i] == '{'
             || (v[i] in "^~" && i + 1 < |v| && !SpaceAt(v, i + 1))
             || (v[i] in "`*_#" && !Paired(v, i) && OpenBoundary(t, v, i))
    ensures Marker(i, v[i], Constrained, NextCloser(t, v, v[i], Constrained, i + 1)) in Candidates(t, v)
  {
    hide Guarded, MainScan, CandidateOk, MacroCandidate, MacroBoundaryBefore, StartsWith, EscapesAnchor,
      EscapedAnchorEnd, Candidates,
      OpenBoundary, NextCloser, Paired, SpaceAt;
    NoAnchorAt(t, v, i);
    var found := Marker(i, v[i], Constrained, None);
    assert VisitAt(t, v, i, false) == Found(found);
    ScanReaches(t, v, 0, i, Guarded(t, v));
    StartIsBoundary(v);
    ListHolds(t, v, found);
  }

  // ---------------------------------------------------------------- quotations and passthroughs

  /** No quotation or passthrough that starts before the place goes over it. */
  ghost predicate Uncovered(s: seq<Candidate>, i: nat) {
    forall x :: x in s && (x.TypographicQuote? || x.PassthroughAt?) && x.open < i ==> x.end <= i
  }

  lemma {:induction false} PreparseReaches(t: WordTable, v: Segment, at: nat, i: nat)
    requires at <= i && i + 1 < |v| && Boundary(v, at) && Boundary(v, i) && v[i] != '`'
    requires Uncovered(Preparse(t, v, at).candidates, i)
    ensures PreparseAt(t, v, i).1.Some? ==> PreparseAt(t, v, i).1.value in Preparse(t, v, at).candidates
    decreases i - at
  {
    hide CandidateOk, OpenBoundary, Find, StartsWith, PassthroughFrom, QuoteFrom;
    if at < i {
      var (next, found) := PreparseAt(t, v, at);
      NextIsNext(v, at);
      if found.Some? {
        assert found.value in Preparse(t, v, at).candidates;
      }
      PreparseReaches(t, v, next, i);
    }
  }

  /** A run of one, two or three plus signs, the single one at an open boundary, that is closed by the next
      run as long with something between, is a passthrough, unless an earlier span goes over it. */
  lemma PassthroughListed(t: WordTable, v: Segment, i: nat, w: nat, close: nat)
    requires i + 1 < |v| && Boundary(v, i) && 1 <= w <= 3 && i + w <= |v| && v[i] == '+'
    requires (forall j :: i <= j < i + w ==> v[j] == '+') && (w < 3 && i + w < |v| ==> v[i + w] != '+')
    requires (w == 1 ==> OpenBoundary(t, v, i)) && Find(v, i + w, Pluses(w)) == Some(close) && i + w < close
    requires Uncovered(Preparse(t, v, 0).candidates, i)
    ensures PassthroughAt(i, w, i + w, close, close + w) in Candidates(t, v)
  {
    hide CandidateOk, OpenBoundary, Find, StartsWith, Preparse, Candidates, Boundary;
    StartIsBoundary(v);
    RunOf(v, i, w);
    PassthroughIs(t, v, i, w, close);
    PreparseReaches(t, v, 0, i);
    ListHolds(t, v, PassthroughAt(i, w, i + w, close, close + w));
  }

  lemma PassthroughIs(t: WordTable, v: Segment, i: nat, w: nat, close: nat)
    requires i < |v| && 1 <= w <= 3 && v[i] == '+' && Min(SkipWhile(v, i, Plus) - i, 3) == w
    requires (w == 1 ==> OpenBoundary(t, v, i)) && Find(v, i + w, Pluses(w)) == Some(close) && i + w < close
    ensures PassthroughFrom(t, v, i) == Some(PassthroughAt(i, w, i + w, close, close + w))
  {
    hide CandidateOk, OpenBoundary, Find, StartsWith, SkipWhile;
  }

  lemma RunOf(v: Text, i: nat, w: nat)
    requires 1 <= w <= 3 && i + w <= |v|
    requires (forall j :: i <= j < i + w ==> v[j] == '+') && (w < 3 && i + w < |v| ==> v[i + w] != '+')
    ensures Min(SkipWhile(v, i, Plus) - i, 3) == w
  {
    var end := SkipWhile(v, i, Plus);
    if i + w < end {
      assert Plus(v[i + w]);
    }
  }

  lemma QuoteIs(t: WordTable, v: Segment, i: nat, close: nat)
    requires i + 1 < |v| && Boundary(v, i) && v[i] in "'\"" && v[i + 1] == '`'
      && Find(v, i + 2, ['`', v[i]]) == Some(close)
    ensures PreparseAt(t, v, i).1 == Some(TypographicQuote(i, v[i], i + 2, close, close + 2))
  {
    hide CandidateOk, OpenBoundary, Find, StartsWith, Boundary, SkipWhile;
    assert PassthroughFrom(t, v, i) == None;
    assert QuoteOpens(v, i);
  }

  /** A quotation mark and a backtick, closed by a backtick and the same mark, are a quotation, unless an
      earlier span goes over them. */
  lemma QuoteListed(t: WordTable, v: Segment, i: nat, close: nat)
    requires i + 1 < |v| && Boundary(v, i) && v[i] in "'\"" && v[i + 1] == '`'
      && Find(v, i + 2, ['`', v[i]]) == Some(close)
    requires Uncovered(Preparse(t, v, 0).candidates, i)
    ensures TypographicQuote(i, v[i], i + 2, close, close + 2) in Candidates(t, v)
  {
    hide CandidateOk, OpenBoundary, Find, StartsWith, Preparse, PreparseAt, Candidates, Boundary, SkipWhile;
    StartIsBoundary(v);
    QuoteIs(t, v, i, close);
    PreparseReaches(t, v, 0, i);
    ListHolds(t, v, TypographicQuote(i, v[i], i + 2, close, close + 2));
  }
}
