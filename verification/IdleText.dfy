/** Text in which nothing can open is one unbroken text. */
module IdleText {
  import opened Text
  import opened Source
  import opened InlineModel
  import opened InlineGrammar
  import opened InlineRecognition
  import opened InlineCandidates
  import opened InlineParser
  import N = InlineNodes
  import E = EscapedMacros

  /** Text of hyphens, carriage returns and spaces, in which nothing can open. */
  predicate Idle(v: Text) {
    forall i :: 0 <= i < |v| ==> v[i] in "-\r "
  }

  lemma {:induction false} NothingPreparsed(t: WordTable, v: Segment, i: nat)
    requires Idle(v) && i <= |v| && Boundary(v, i)
    ensures Preparse(t, v, i) == Preparsed([], {})
    decreases |v| - i
  {
    hide Find, CandidateOk, OpenBoundary;
    if i + 1 < |v| {
      assert v[i] in "-\r ";
      assert PreparseAt(t, v, i) == (Next(v, i), None);
      NothingPreparsed(t, v, Next(v, i));
    }
  }

  lemma {:induction false} NoMonospace(t: WordTable, v: Segment, i: nat)
    requires Idle(v) && i <= |v|
    ensures Monospace(t, v, i, None, {}) == Preparsed([], {})
    decreases |v| - i
  {
    if i < |v| {
      assert v[i] in "-\r ";
      NoMonospace(t, v, i + 1);
    }
  }

  lemma IdleIsSkipped(t: WordTable, v: Segment, i: nat)
    requires Idle(v) && i < |v| && Boundary(v, i)
    ensures VisitAt(t, v, i, false) == Skip
  {
    hide Valid, Find, CandidateOk, OpenBoundary;
    assert v[i] in "-\r ";
    E.FirstUnit(v, i, "<<");
    E.FirstUnit(v, i, "[[");
    E.FirstUnit(v, i, "\\[[");
    E.FirstUnit(v, i, "\\[#");
    IdleHasNoName(v, i);
    IdleHasNoAddress(v, i);
  }

  lemma IdleHasNoName(v: Segment, i: nat)
    requires i < |v| && v[i] in "-\r "
    ensures NamedPrefix(v, i).None?
  {
  }

  lemma IdleHasNoAddress(v: Segment, i: nat)
    requires Idle(v) && i < |v|
    ensures EmailEnd(v, i).None?
  {
    var at := SkipWhile(v, i, EmailLocal);
    assert at < |v| ==> v[at] in "-\r ";
  }

  lemma {:induction false} NothingScanned(t: WordTable, v: Segment, i: nat)
    requires Idle(v) && i <= |v| && Boundary(v, i)
    ensures MainScan(t, v, i, {}) == Scanned([], [])
    decreases |v| - i
  {
    hide VisitAt, CandidateOk, MainScan;
    if i < |v| {
      IdleIsSkipped(t, v, i);
      E.ScanUnfolds(t, v, i, {});
      NothingScanned(t, v, Next(v, i));
    } else {
      E.ScanStops(t, v, {});
    }
  }

  lemma NoCandidates(t: WordTable, v: Segment)
    requires Idle(v)
    ensures Candidates(t, v) == []
  {
    hide Preparse, Monospace, MainScan, CandidateOk;
    NothingPreparsed(t, v, 0);
    NoMonospace(t, v, 0);
    NothingScanned(t, v, 0);
    var none: seq<Candidate> := [];
    assert none + none + none == none;
    assert ClosedAll(t, v, []) == [];
  }

  /** Idle text is one text. */
  lemma IdleIsText(t: WordTable, v: Segment, base: nat, cfg: Config)
    requires Idle(v) && v != []
    ensures ParsedSegment(t, v, base, cfg, 0).inlines == [PlainText(Range(base, base + |v|), v)]
  {
    hide Candidates, Indexes, IndexesLabels, DelimitersOf, LabelsOf, Ready, AllOk, Step;
    NoCandidates(t, v);
    LabelsIndexed(v);
    StartIsReady(v, base);
    assert Consume(t, v, base, cfg, 0, DelimitersOf(v), LabelsOf(v), [], START) == START;
    assert v[0..|v|] == v;
  }

  lemma {:induction false} IdleSplits(r: TextRange, v: Text, i: nat)
    requires Idle(v) && i <= |v| && v != []
    ensures N.SplitFrom(r, v, 0, i) == [PlainText(N.Relative(r, 0, |v|), v)]
    decreases |v| - i
  {
    if i < |v| {
      assert v[i] in "-\r ";
      IdleSplits(r, v, i + 1);
    } else {
      assert v[0..|v|] == v;
    }
  }

  /** It has no hard break. */
  lemma IdleIsUnbroken(r: TextRange, v: Text)
    requires Idle(v) && v != [] && r.end == r.start + |v|
    ensures N.SplitHardBreaks([PlainText(r, v)]) == [PlainText(r, v)]
  {
    hide N.SplitFrom;
    IdleSplits(r, v, 0);
    var x := PlainText(r, v);
    assert [x][..0] == [] && N.SplitHardBreaks([]) == [];
    assert N.SplitHardBreaks([x]) == [] + N.SplitOne(x) == N.SplitOne(x);
  }
}
