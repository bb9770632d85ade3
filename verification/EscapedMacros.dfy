/** Texts that are one escaped macro, and two of them whose ranges come out wrong. */
module EscapedMacros {
  import opened Text
  import opened InlineModel
  import opened InlineGrammar
  import opened InlineRecognition
  import opened InlineCandidates
  import opened InlineParser
  import N = InlineNodes

  /** Units that quotations, passthroughs and monospace spans open and close with. */
  const QUIET := "'\"+`"

  /** A backslash, and right behind it what the scan takes for a macro. */
  ghost predicate EscapedStart(t: WordTable, v: Segment) {
    && 2 <= |v| && v[0] == '\\' && Boundary(v, 1) && v[1] !in QUIET
    && VisitAt(t, v, 0, false) == Skip && VisitAt(t, v, 1, false) == Found(MacroAt(1))
  }

  // ---------------------------------------------------------------- the candidates of each scan

  ghost predicate Quiet(v: Segment, s: seq<Candidate>) {
    forall c :: c in s ==> !c.Marker? && c.open < |v| && v[c.open] in QUIET
  }

  ghost predicate Clear(v: Segment, guarded: set<int>) {
    forall g :: g in guarded ==> 0 <= g < |v| && v[g] in QUIET
  }

  lemma QuietJoin(v: Segment, c: Candidate, s: seq<Candidate>)
    requires Quiet(v, s) && !c.Marker? && c.open < |v| && v[c.open] in QUIET
    ensures Quiet(v, [c] + s)
  {
  }

  lemma NothingQuiet(v: Segment)
    ensures Quiet(v, []) && Clear(v, {})
  {
  }

  lemma ClearAdds(v: Segment, a: set<int>, b: set<int>)
    requires Clear(v, a) && Clear(v, b)
    ensures Clear(v, a + b) && Clear(v, b + a)
  {
  }

  lemma {:induction false} MonospaceKinds(t: WordTable, v: Segment, i: nat, pending: Option<nat>, guarded: set<int>)
    requires i <= |v| && (pending.Some? ==> pending.value < i && v[pending.value] == '`') && Clear(v, guarded)
    ensures var r := Monospace(t, v, i, pending, guarded); Quiet(v, r.candidates) && Clear(v, r.guarded)
    decreases |v| - i
  {
    hide InvalidMonospace, CandidateOk, Quiet, Clear;
    NothingQuiet(v);
    if i < |v| {
      if v[i] != '`' {
        MonospaceKinds(t, v, i + 1, pending, guarded);
      } else {
        var end := SkipWhile(v, i, Backtick);
        if end - i != 1 {
          MonospaceKinds(t, v, end, None, guarded);
        } else if pending.None? {
          MonospaceKinds(t, v, end, Some(i), guarded);
        } else if InvalidMonospace(t, v, pending.value, i, guarded) {
          ClearPair(v, pending.value, i);
          ClearAdds(v, guarded, {pending.value, i});
          MonospaceKinds(t, v, end, None, guarded + {pending.value, i});
          QuietJoin(v, MonospaceBoundaryAt(pending.value, i + 1),
            Monospace(t, v, end, None, guarded + {pending.value, i}).candidates);
        } else {
          MonospaceKinds(t, v, end, None, guarded);
        }
      }
    }
  }

  lemma ClearPair(v: Segment, i: nat, j: nat)
    requires i < |v| && j < |v| && v[i] == v[j] == '`'
    ensures Clear(v, {i, j})
  {
  }

  /** The delimiters of quotations and passthroughs are quotes, backticks and plus signs. */
  lemma DelimiterUnits(t: WordTable, v: Segment, c: Candidate)
    requires (c.TypographicQuote? || c.PassthroughAt?) && CandidateOk(t, v, c)
    ensures Clear(v, DelimiterOffsets(c)) && c.open < |v| && v[c.open] in QUIET
  {
    hide Valid, Find, StartsWith, Clear;
    var w := c.contentStart - c.open;
    if c.PassthroughAt? {
      RunsAreClear(v, c.open, c.contentStart, Pluses(w), c.contentEnd, c.end, Pluses(w));
    } else {
      RunsAreClear(v, c.open, c.contentStart, [c.quote, '`'], c.contentEnd, c.end, ['`', c.quote]);
    }
  }

  lemma RunsAreClear(v: Segment, open: nat, start: nat, opener: string, contentEnd: nat, end: nat, closer: string)
    requires StartsWith(v, open, opener) && StartsWith(v, contentEnd, closer)
    requires open < start == open + |opener| && end == contentEnd + |closer|
    requires forall c :: c in opener || c in closer ==> c in QUIET
    ensures Clear(v, Offsets(open, start) + Offsets(contentEnd, end)) && open < |v| && v[open] in QUIET
  {
    hide Valid, StartsWith;
    RunUnits(v, open, opener);
    RunUnits(v, contentEnd, closer);
    var offsets := Offsets(open, start) + Offsets(contentEnd, end);
    forall g | g in offsets ensures 0 <= g < |v| && v[g] in QUIET {
      assert open <= g < open + |opener| || contentEnd <= g < contentEnd + |closer|;
    }
    assert v[open] in QUIET;
  }

  lemma RunUnits(v: Segment, i: nat, p: string)
    requires StartsWith(v, i, p) && forall c :: c in p ==> c in QUIET
    ensures i + |p| <= |v| && forall g :: i <= g < i + |p| ==> v[g] in QUIET
  {
    forall g | i <= g < i + |p| ensures v[g] in QUIET {
      assert v[i..i + |p|][g - i] == v[g];
      assert p[g - i] in p;
    }
  }

  lemma {:induction false} PreparseKinds(t: WordTable, v: Segment, i: nat)
    requires i <= |v| && Boundary(v, i)
    ensures var r := Preparse(t, v, i); Quiet(v, r.candidates) && Clear(v, r.guarded)
    decreases |v| - i
  {
    hide DelimiterOffsets, CandidateOk, PreparseAt, Quiet, Clear;
    NothingQuiet(v);
    if i + 1 < |v| {
      var (next, found) := PreparseAt(t, v, i);
      PreparseKinds(t, v, next);
      if found.Some? {
        DelimiterUnits(t, v, found.value);
        QuietJoin(v, found.value, Preparse(t, v, next).candidates);
        ClearAdds(v, DelimiterOffsets(found.value), Preparse(t, v, next).guarded);
      }
    }
  }

  lemma ScanUnfolds(t: WordTable, v: Segment, i: nat, guarded: set<int>)
    requires i < |v| && Boundary(v, i)
    ensures var visit := VisitAt(t, v, i, i in guarded);
      MainScan(t, v, i, guarded) == Prepended(visit, i, MainScan(t, v, Next(v, i), GuardedAfter(visit, i, guarded)))
  {
    hide VisitAt, CandidateOk;
  }

  lemma {:induction false} MisplacedLater(t: WordTable, v: Segment, i: nat, guarded: set<int>)
    requires i <= |v| && Boundary(v, i)
    ensures forall m :: m in MainScan(t, v, i, guarded).misplaced ==> i <= m
    decreases |v| - i
  {
    hide VisitAt, CandidateOk, Increasing, MainScan;
    if i < |v| {
      var visit := VisitAt(t, v, i, i in guarded);
      ScanUnfolds(t, v, i, guarded);
      MisplacedLater(t, v, Next(v, i), GuardedAfter(visit, i, guarded));
    } else {
      ScanStops(t, v, guarded);
    }
  }

  lemma ScanStops(t: WordTable, v: Segment, guarded: set<int>)
    ensures MainScan(t, v, |v|, guarded) == Scanned([], [])
  {
  }

  ghost predicate OnlyMacro(s: seq<Candidate>) {
    forall c :: c in s && c.open <= 1 ==> c == MacroAt(1)
  }

  /** The main scan finds the macro, and nothing else in the first two units. */
  lemma ScanFinds(t: WordTable, v: Segment, guarded: set<int>)
    requires EscapedStart(t, v) && Boundary(v, 0) && 0 !in guarded && 1 !in guarded
    ensures var r := MainScan(t, v, 0, guarded);
      MacroAt(1) in r.candidates && OnlyMacro(r.candidates) && forall m :: m in r.misplaced ==> 1 < m
  {
    hide VisitAt, CandidateOk, MainScan;
    ScanUnfolds(t, v, 0, guarded);
    AsciiIsWhole(v, 0);
    ScanUnfolds(t, v, 1, guarded);
    var next := Next(v, 1);
    MisplacedLater(t, v, next, guarded);
    var rest := MainScan(t, v, next, guarded).candidates;
    forall c | c in rest ensures 1 < c.open {
      var k :| 0 <= k < |rest| && rest[k] == c;
    }
  }

  /** The first candidate of the whole text is the escaped macro. */
  lemma FirstIsMacro(t: WordTable, v: Segment)
    requires EscapedStart(t, v)
    ensures var cs := Candidates(t, v); cs != [] && cs[0] == MacroAt(1)
  {
    hide MainScan, Preparse, Monospace, CandidateOk, NextCloser, VisitAt, Quiet, Clear;
    var preparsed := Preparse(t, v, 0);
    PreparseKinds(t, v, 0);
    var monospace := Monospace(t, v, 0, None, preparsed.guarded);
    MonospaceKinds(t, v, 0, None, preparsed.guarded);
    NotGuarded(v, monospace.guarded);
    ScanFinds(t, v, monospace.guarded);
    var scanned := MainScan(t, v, 0, monospace.guarded);
    QuietIsLater(v, preparsed.candidates);
    QuietIsLater(v, monospace.candidates);
    CloseFirst(t, v, preparsed.candidates, monospace.candidates, scanned.candidates);
    var closed := ClosedAll(t, v, preparsed.candidates + monospace.candidates + scanned.candidates);
    var cs := Candidates(t, v);
    assert MacroAt(1) in cs;
    assert cs[0].open <= 1 by {
      if cs[0] != MacroAt(1) {
        assert MacroAt(1) in cs[1..];
      }
    }
    assert cs[0] in closed + Misplacements(scanned.misplaced);
    MisplacementsLater(scanned.misplaced);
  }

  lemma MisplacementsLater(s: seq<nat>)
    requires forall m :: m in s ==> 1 < m
    ensures forall c :: c in Misplacements(s) ==> 1 < c.open
  {
    forall c | c in Misplacements(s) ensures 1 < c.open {
      var k :| 0 <= k < |s| && c == MacroBoundaryAt(s[k]);
      assert s[k] in s;
    }
  }

  lemma NotGuarded(v: Segment, guarded: set<int>)
    requires Clear(v, guarded) && 2 <= |v| && v[0] == '\\' && v[1] !in QUIET
    ensures 0 !in guarded && 1 !in guarded
  {
  }

  lemma QuietIsLater(v: Segment, s: seq<Candidate>)
    requires Quiet(v, s) && 2 <= |v| && v[0] == '\\' && v[1] !in QUIET
    ensures forall c :: c in s ==> 1 < c.open
  {
  }

  lemma CloseFirst(t: WordTable, v: Segment, a: seq<Candidate>, b: seq<Candidate>, c: seq<Candidate>)
    requires (forall x :: x in a ==> 1 < x.open) && (forall x :: x in b ==> 1 < x.open) && OnlyMacro(c)
      && MacroAt(1) in c
    ensures var r := ClosedAll(t, v, a + b + c); MacroAt(1) in r && OnlyMacro(r)
  {
    hide NextCloser;
    var all := a + b + c;
    var r := ClosedAll(t, v, all);
    forall x | x in r && x.open <= 1 ensures x == MacroAt(1) {
      var k :| 0 <= k < |all| && x == Closed(t, v, all[k]);
      assert all[k] in a || all[k] in b || all[k] in c;
    }
    var k :| 0 <= k < |c| && c[k] == MacroAt(1);
    assert all[|a| + |b| + k] == MacroAt(1);
    assert r[|a| + |b| + k] == MacroAt(1);
  }

  // ---------------------------------------------------------------- the parsed segment

  /** The macro reaches to the end of the text, or is incomplete. */
  ghost predicate WholeMacro(v: Segment, d: Delimiters, u: seq<nat>)
    requires Indexes(d, v) && IndexesLabels(u, v) && 1 < |v| && Boundary(v, 1)
  {
    match RecognizeMacro(v, 1, d, u)
    case Matched(k) => k.end == |v|
    case Recovered(_, _) => true
    case Rejected(_) => false
  }

  /** An escaped macro that is the whole text becomes one text without its backslash. */
  lemma EscapedMacroIsText(t: WordTable, v: Segment, base: nat, cfg: Config)
    requires EscapedStart(t, v) && IndexesLabels(LabelsOf(v), v) && WholeMacro(v, DelimitersOf(v), LabelsOf(v))
    ensures ParsedSegment(t, v, base, cfg, 0).inlines == [PlainText(Range(base, base + |v|), v[1..])]
  {
    hide Candidates, RecognizeMacro, Indexes, IndexesLabels, DelimitersOf, LabelsOf, EscapedStart, WholeMacro, Ready,
      AllOk, Consume, Step;
    var d, u, cs := DelimitersOf(v), LabelsOf(v), Candidates(t, v);
    StartIsReady(v, base);
    FirstIsMacro(t, v);
    ConsumeUnfolds(t, v, base, cfg, d, u, cs);
    FirstStep(t, v, base, cfg, d, u);
    var st := Step(t, v, base, cfg, 0, d, u, START, cs[0]);
    NothingAfterEnd(t, v, base, cfg, 0, d, u, cs[1..], st);
    FinishedIs(v, base, st);
  }

  lemma FinishedIs(v: Segment, base: nat, st: Scan)
    requires Ready(v, base, st) && st.plainStart == |v|
    ensures Finished(v, base, st).inlines == st.inlines
  {
  }

  lemma ConsumeUnfolds(t: WordTable, v: Segment, base: nat, cfg: Config, d: Delimiters, u: seq<nat>, cs: seq<Candidate>)
    requires Indexes(d, v) && IndexesLabels(u, v) && Ready(v, base, START) && AllOk(t, v, cs) && cs != []
    ensures CandidateOk(t, v, cs[0]) && AllOk(t, v, cs[1..])
    ensures Consume(t, v, base, cfg, 0, d, u, cs, START)
         == Consume(t, v, base, cfg, 0, d, u, cs[1..], Step(t, v, base, cfg, 0, d, u, START, cs[0]))
  {
    hide Indexes, IndexesLabels, Step, CandidateOk, Ready;
  }

  ghost predicate AllText(v: Segment, base: nat, st: Scan) {
    |v| > 0 && st.inlines == [PlainText(Range(base, base + |v|), v[1..])] && st.cursor == |v| && st.plainStart == |v|
  }

  lemma FirstStep(t: WordTable, v: Segment, base: nat, cfg: Config, d: Delimiters, u: seq<nat>)
    requires EscapedStart(t, v) && Indexes(d, v) && IndexesLabels(u, v) && Ready(v, base, START)
      && CandidateOk(t, v, MacroAt(1))
    requires WholeMacro(v, d, u)
    ensures AllText(v, base, Step(t, v, base, cfg, 0, d, u, START, MacroAt(1)))
  {
    hide RecognizeMacro, Indexes, IndexesLabels, MacroOk, MacroCandidate, VisitAt, Ready, StepMatched, StepRecovered;
    assert IsEscaped(v, 1) by { OneBackslash(v); }
    match RecognizeMacro(v, 1, d, u) {
      case Matched(k) => MatchedText(t, v, base, cfg, k);
      case Recovered(next, kind) => RecoveredText(v, base, next, kind);
    }
  }

  lemma OneBackslash(v: Segment)
    requires 1 < |v| && v[0] == '\\'
    ensures IsEscaped(v, 1)
  {
    assert BackslashRun(v, 0) == 0;
  }

  lemma MatchedText(t: WordTable, v: Segment, base: nat, cfg: Config, k: MacroToken)
    requires 1 < |v| && v[0] == '\\' && IsEscaped(v, 1) && Ready(v, base, START) && MacroOk(v, k) && k.open == 1
      && k.end == |v| && MacroOpens(v, 1)
    ensures AllText(v, base, StepMatched(t, v, base, cfg, 0, START, k))
  {
    hide MacroOk, LowerMacro, SafeStart, MacroCandidate, Tiles, Valid, IsEscaped;
    assert v[1..|v|] == v[1..];
  }

  lemma RecoveredText(v: Segment, base: nat, next: nat, kind: ProblemKind)
    requires 1 < next <= |v| && v[0] == '\\' && IsEscaped(v, 1) && Boundary(v, 1) && Ready(v, base, START)
      && MacroOpens(v, 1)
    ensures AllText(v, base, StepRecovered(v, base, START, 1, next, kind))
  {
    hide SafeStart, MacroCandidate, Tiles, Valid, IsEscaped;
    assert v[1..|v|] == v[1..];
  }

  lemma FirstUnit(v: Text, i: nat, p: string)
    requires p != []
    ensures StartsWith(v, i, p) ==> v[i] == p[0]
  {
    if i + |p| <= |v| {
      assert v[i..i + |p|][0] == v[i];
    }
  }

  /** Nothing starts at a backslash but an escaped anchor. */
  lemma BackslashIsSkipped(t: WordTable, v: Segment)
    requires 1 < |v| && v[0] == '\\' && v[1] != '[' && Boundary(v, 0)
    ensures VisitAt(t, v, 0, false) == Skip
  {
    hide Valid, Find;
    FirstUnit(v, 0, "<<");
    FirstUnit(v, 0, "[[");
    NoName(v, 0);
    NoAnchor(v);
  }

  lemma NoAnchor(v: Segment)
    requires 1 < |v| && v[1] != '['
    ensures !EscapesAnchor(v, 0)
  {
    assert 3 <= |v| ==> v[0..3][1] == v[1] && v[0..3][2] == v[2];
    assert StartsWith(v, 0, "\\[[") || StartsWith(v, 0, "\\[#") ==> 3 <= |v|;
  }

  /** No macro name starts with any of these. */
  lemma NoName(v: Segment, i: nat)
    requires i < |v| && v[i] in "\\<h"
    ensures NamedPrefix(v, i).None?
  {
    hide StartsIgnoringCase;
    NoStandardName(v, i, 0);
    FirstLetter(v, i, "stem:[");
    FirstLetter(v, i, "latexmath:[");
    FirstLetter(v, i, "asciimath:[");
    FirstLetter(v, i, "pass:[");
    FirstLetter(v, i, "xref:");
    FirstLetter(v, i, "link:");
  }

  lemma {:induction false} NoStandardName(v: Segment, i: nat, k: nat)
    requires i < |v| && v[i] in "\\<h" && k <= |PREFIXES|
    ensures StandardPrefix(v, i, k).None?
    decreases |PREFIXES| - k
  {
    hide StartsIgnoringCase;
    if k < |PREFIXES| {
      NoStandardName(v, i, k + 1);
      FirstLetter(v, i, PREFIXES[k].0);
    }
  }

  lemma FirstLetter(v: Segment, i: nat, p: string)
    requires i < |v| && p != []
    ensures StartsIgnoringCase(v, i, p) ==> Lower(v[i]) == Lower(p[0])
  {
    assert StartsIgnoringCase(v, i, p) ==> Lower(v[i + 0]) == Lower(p[0]);
  }

  // ---------------------------------------------------------------- an escaped reference

  /** A backslash, then `<<...>>` to the end of the segment. */
  ghost predicate EscapedReference(v: Segment) {
    5 <= |v| && v[0] == '\\' && StartsWith(v, 1, "<<") && Find(v, 3, ">>") == Some(|v| - 2)
  }

  lemma EscapedReferenceStarts(t: WordTable, v: Segment)
    requires EscapedReference(v)
    ensures EscapedStart(t, v)
  {
    hide Valid, Find;
    AsciiIsWhole(v, 0);
    FirstUnit(v, 1, "<<");
    BackslashIsSkipped(t, v);
    assert !EscapesAnchor(v, 1) by {
      FirstUnit(v, 1, "\\[[");
      FirstUnit(v, 1, "\\[#");
    }
  }

  lemma ReferenceIsWhole(v: Segment, d: Delimiters, u: seq<nat>)
    requires EscapedReference(v) && Indexes(d, v) && IndexesLabels(u, v) && Boundary(v, 1)
    ensures WholeMacro(v, d, u)
  {
    hide NamedPrefix, Find, MacroOk, StartsWith, EmailEnd, SafeStart, Valid;
    FirstUnit(v, 1, "<<");
    FirstUnit(v, 1, "[[");
    FirstUnit(v, 1, "[[[");
    NoName(v, 1);
  }

  /** The whole segment becomes one text without its backslash. */
  lemma EscapedReferenceIsText(t: WordTable, v: Segment, base: nat, cfg: Config)
    requires EscapedReference(v)
    ensures ParsedSegment(t, v, base, cfg, 0).inlines == [PlainText(Range(base, base + |v|), v[1..])]
  {
    hide EscapedReference, EscapedStart, WholeMacro, Indexes, IndexesLabels, ParsedSegment;
    LabelsIndexed(v);
    EscapedReferenceStarts(t, v);
    assert 1 < |v| && Boundary(v, 1) by { StartFacts(t, v); }
    ReferenceIsWhole(v, DelimitersOf(v), LabelsOf(v));
    EscapedMacroIsText(t, v, base, cfg);
  }

  lemma StartFacts(t: WordTable, v: Segment)
    requires EscapedStart(t, v)
    ensures 1 < |v| && Boundary(v, 1)
  {
  }

  // ---------------------------------------------------------------- a break inside a reference

  /** A backslash and `<<`, then e with an acute accent, a hard break and `>>`. */
  const INPUT: Text := "\\<<\U{C3}\U{A9} +\n>>"

  lemma InputIsValid()
    ensures Valid(INPUT) && |INPUT| == 10
  {
  }

  lemma InputCloses()
    ensures |INPUT| == 10 && Find(INPUT, 3, ">>") == Some(8)
  {
    FindIsFirst(INPUT, 3, ">>");
    assert INPUT[8..10] == ">>" && StartsWith(INPUT, 8, ">>");
    var r := Find(INPUT, 3, ">>");
    FirstUnit(INPUT, r.value, ">>");
    assert r.value + 2 <= |INPUT| && 3 <= r.value <= 8;
  }

  lemma InputIsSegment()
    ensures Valid(INPUT) && |INPUT| == 10 && EscapedReference(INPUT)
  {
    hide Find, Valid;
    InputIsValid();
    InputCloses();
    assert INPUT[1..3] == "<<";
  }

  lemma {:induction false} LandsEverywhere(value: Text, escape: nat, from: nat, i: nat)
    requires from <= i < |value| && N.BreaksLandFrom(value, escape, from)
    requires value[i] == '\n' && N.MarkerBefore(value, i).Some?
    ensures N.LandsAt(value, escape, N.MarkerBefore(value, i).value)
    decreases i - from
  {
    hide N.MarkerBefore, N.LandsAt;
    if from < i {
      LandsEverywhere(value, escape, from + 1, i);
    }
  }

  /** Its hard break is put one byte early, inside the accented character. */
  lemma InputDoesNotLand(t: WordTable, base: nat, cfg: Config)
    ensures Valid(INPUT) && |INPUT| == 10
    ensures !N.AllBreaksLand(ParsedSegment(t, INPUT, base, cfg, 0).inlines)
  {
    hide ParsedSegment, EscapedReference;
    InputIsSegment();
    EscapedReferenceIsText(t, INPUT, base, cfg);
    var x := PlainText(Range(base, base + 10), INPUT[1..]);
    OneText(x);
  }

  lemma OneText(x: Inline)
    requires x.PlainText? && x.value == INPUT[1..] && x.range.end - x.range.start == 10
    ensures !N.AllBreaksLand([x])
  {
    var value := INPUT[1..];
    assert |INPUT| == 10;
    assert value[4..6] == " +";
    if N.BreaksLandFrom(value, 1, 0) {
      assert N.MarkerBefore(value, 6) == Some(4);
      LandsEverywhere(value, 1, 0, 6);
      assert false;
    }
    assert [x][..0] == [];
  }

  // ---------------------------------------------------------------- an escaped address

  /** A backslash, `https://` and e with an acute accent. */
  const ADDRESS: Text := "\\https://\U{C3}\U{A9}"

  lemma AddressIsValid()
    ensures Valid(ADDRESS) && |ADDRESS| == 11
  {
  }

  lemma AddressScheme()
    ensures |ADDRESS| == 11 && SkipWhile(ADDRESS, 1, SchemeUnit) == 6 && SkipWhile(ADDRESS, 1, EmailLocal) == 6
  {
    SkipTo(ADDRESS, 1, 6, SchemeUnit);
    SkipTo(ADDRESS, 1, 6, EmailLocal);
  }

  lemma {:induction false} SkipTo(v: Text, i: nat, end: nat, p: char -> bool)
    requires i <= end <= |v| && (forall j :: i <= j < end ==> p(v[j])) && (end == |v| || !p(v[end]))
    ensures SkipWhile(v, i, p) == end
    decreases end - i
  {
    if i < end {
      SkipTo(v, i + 1, end, p);
    }
  }

  /** Nothing in the address is a white-space character. */
  lemma AddressStops()
    ensures Valid(ADDRESS) && |ADDRESS| == 11
    ensures SchemeEnd(ADDRESS, 1) == Some(7) && Boundary(ADDRESS, 7) && LabelOrSpace(ADDRESS, 7) == 11
  {
    hide Valid;
    AddressIsValid();
    AddressScheme();
    var v: Segment := ADDRESS;
    AsciiIsWhole(v, 6);
    AsciiIsWhole(v, 7);
    AsciiIsWhole(v, 8);
    assert Next(v, 9) == 11;
    assert v[7..8] == "/" && v[8..9] == "/" && v[9..11] == "\U{C3}\U{A9}";
    assert !SpaceAt(v, 7) && !SpaceAt(v, 8) && !SpaceAt(v, 9);
    assert LabelOrSpace(v, 11) == 11;
    assert LabelOrSpace(v, 9) == 11;
    assert LabelOrSpace(v, 8) == 11;
  }

  lemma AddressOpens()
    ensures Valid(ADDRESS) && |ADDRESS| == 11 && Boundary(ADDRESS, 0) && Boundary(ADDRESS, 1)
    ensures MacroCandidate(ADDRESS, 1) && MacroBoundaryBefore(ADDRESS, 1)
  {
    hide Valid, SchemeEnd, LabelOrSpace, EmailEnd, NamedMacro;
    AddressStops();
    var v: Segment := ADDRESS;
    AsciiIsWhole(v, 0);
    OneBackslash(v);
    assert v[7..9] == "//";
    assert UrlStart(v, 1) && UrlLinkCandidate(v, 1);
    assert CharBefore(v, 0) == None;
  }

  lemma AddressStarts(t: WordTable)
    ensures Valid(ADDRESS) && EscapedStart(t, ADDRESS)
  {
    hide Valid, MacroCandidate, MacroBoundaryBefore;
    AddressOpens();
    var v: Segment := ADDRESS;
    BackslashIsSkipped(t, v);
    FirstUnit(v, 1, "\\[[");
    FirstUnit(v, 1, "\\[#");
  }

  /** What is no anchor, named macro, reference or e-mail address is taken for a URL. */
  lemma TakenForUrl(v: Segment, open: nat, d: Delimiters, u: seq<nat>)
    requires open < |v| && Boundary(v, open) && Indexes(d, v) && IndexesLabels(u, v)
    requires !StartsWith(v, open, "[[[") && !StartsWith(v, open, "[[") && !StartsWith(v, open, "<<")
    requires NamedPrefix(v, open).None? && EmailEnd(v, open).None?
    ensures RecognizeMacro(v, open, d, u) == RecognizeUrl(v, open, d, u)
  {
    hide Indexes, IndexesLabels, NamedPrefix, EmailEnd, StartsWith, Find, RecognizeUrl, MacroOk, SafeStart, UnitOk;
  }

  /** A URL up to the end of the text, without punctuation there, is recognised as a whole. */
  lemma UrlToEnd(v: Segment, open: nat, scheme: nat, d: Delimiters, u: seq<nat>)
    requires open < |v| && Boundary(v, open) && Indexes(d, v) && IndexesLabels(u, v)
    requires SchemeEnd(v, open) == Some(scheme) && scheme < |v| && Boundary(v, scheme) && LabelOrSpace(v, scheme) == |v|
    requires !TrailingPunctuation(v[|v| - 1])
    ensures RecognizeUrl(v, open, d, u) == Matched(Url(open, |v|, None, |v|))
  {
    hide Indexes, SchemeEnd, LabelOrSpace, MacroOk, SafeStart, UnitOk;
    assert u[scheme] == |v|;
    assert TrimBack(v, open, |v|, TrailingPunctuation) == |v|;
  }

  lemma AddressIsWhole(d: Delimiters, u: seq<nat>)
    requires Valid(ADDRESS) && Indexes(d, ADDRESS) && IndexesLabels(u, ADDRESS)
    ensures |ADDRESS| == 11 && Boundary(ADDRESS, 1) && WholeMacro(ADDRESS, d, u)
  {
    hide Valid, SchemeEnd, LabelOrSpace, NamedPrefix, Indexes, IndexesLabels, RecognizeMacro, RecognizeUrl,
      SkipWhile, MacroOk;
    AddressStops();
    AddressScheme();
    var v: Segment := ADDRESS;
    assert Boundary(v, 1);
    NoName(v, 1);
    FirstUnit(v, 1, "<<");
    FirstUnit(v, 1, "[[");
    FirstUnit(v, 1, "[[[");
    assert EmailEnd(v, 1).None?;
    TakenForUrl(v, 1, d, u);
    UrlToEnd(v, 1, 7, d, u);
  }

  lemma AddressIsText(t: WordTable, base: nat, cfg: Config)
    ensures Valid(ADDRESS) && |ADDRESS| == 11
    ensures ParsedSegment(t, ADDRESS, base, cfg, 0).inlines == [PlainText(Range(base, base + 11), ADDRESS[1..])]
  {
    hide EscapedStart, WholeMacro, Indexes, IndexesLabels, ParsedSegment;
    AddressIsValid();
    LabelsIndexed(ADDRESS);
    AddressStarts(t);
    AddressIsWhole(DelimitersOf(ADDRESS), LabelsOf(ADDRESS));
    EscapedMacroIsText(t, ADDRESS, base, cfg);
  }

  lemma {:induction false} NoBreaks(r: TextRange, value: Text, i: nat)
    requires i <= |value| && value != [] && forall j :: 0 <= j < |value| ==> value[j] != '\n'
    ensures N.SplitFrom(r, value, 0, i) == [PlainText(N.Relative(r, 0, |value|), value)]
    ensures N.BreaksLandFrom(value, 1, i) && !N.EndsInBreak(value)
    decreases |value| - i
  {
    if i < |value| {
      NoBreaks(r, value, i + 1);
    } else {
      assert value[0..|value|] == value;
    }
  }

  /** Without any hard break, splitting moves the end of the escaped address into its last
      character. */
  lemma AddressIsCut(t: WordTable, cfg: Config)
    ensures Valid(ADDRESS) && |ADDRESS| == 11 && !Boundary(ADDRESS, 10)
    ensures var s := ParsedSegment(t, ADDRESS, 0, cfg, 0).inlines;
      && N.AllBreaksLand(s) && !N.AllEndsLand(s)
      && N.SplitHardBreaks(s) == [PlainText(Range(0, 10), ADDRESS[1..])] && !N.TextsLand(ADDRESS, N.SplitHardBreaks(s))
  {
    hide ParsedSegment, Valid, N.SplitHardBreaks, N.AllBreaksLand, N.AllEndsLand, N.TextsLand, Boundary;
    AddressIsText(t, 0, cfg);
    var x := PlainText(Range(0, 11), ADDRESS[1..]);
    OneTextSplits(x);
    AddressSplits(x);
    AddressEnds(x);
  }

  lemma OneTextSplits(x: Inline)
    ensures N.SplitHardBreaks([x]) == N.SplitOne(x)
    ensures (N.AllBreaksLand([x]) <==> N.BreaksLand(x)) && (N.AllEndsLand([x]) <==> N.EndsLand(x))
  {
    hide N.SplitOne, N.BreaksLand, N.EndsLand;
    assert [x][..0] == [] && N.SplitHardBreaks([]) == [] && N.AllBreaksLand([]) && N.AllEndsLand([]);
    assert N.SplitHardBreaks([x]) == [] + N.SplitOne(x) == N.SplitOne(x);
  }

  lemma AddressSplits(x: Inline)
    requires x == PlainText(Range(0, 11), ADDRESS[1..])
    ensures N.SplitOne(x) == [PlainText(Range(0, 10), ADDRESS[1..])] && N.BreaksLand(x)
  {
    hide N.SplitFrom, N.BreaksLandFrom, N.EndsInBreak, Valid;
    NoBreaks(x.range, x.value, 0);
  }

  /** The end of the piece is inside the last character. */
  lemma AddressEnds(x: Inline)
    requires x == PlainText(Range(0, 11), ADDRESS[1..])
    ensures |ADDRESS| == 11 && !Boundary(ADDRESS, 10)
    ensures !N.EndsLand(x) && !N.TextsLand(ADDRESS, [PlainText(Range(0, 10), ADDRESS[1..])])
  {
    hide N.SplitFrom, N.BreaksLandFrom, N.EndsInBreak, Valid, N.TextsLand;
    NoBreaks(x.range, x.value, 0);
    assert ADDRESS[10] == x.value[9] == '\U{A9}';
    N.OneText(ADDRESS, PlainText(Range(0, 10), ADDRESS[1..]));
  }
}
