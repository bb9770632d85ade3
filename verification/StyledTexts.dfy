/** Words around a marked word: the words are text, the marked word is styled. */
module StyledTexts {
  import opened Text
  import opened InlineModel
  import opened InlineGrammar
  import opened InlineRecognition
  import opened InlineCandidates
  import opened InlineParser
  import opened InlineRun
  import E = EscapedMacros
  import M = MarkerNodes
  import R = InlineRecognition

  predicate Letter(c: char) { 'a' <= c <= 'z' }

  predicate Letters(v: Text) { forall i :: 0 <= i < |v| ==> Letter(v[i]) }

  predicate Words(v: Text) { forall i :: 0 <= i < |v| ==> Letter(v[i]) || v[i] == ' ' }

  /** Letters, blanks and markers. */
  predicate Simple(v: Text) { forall i :: 0 <= i < |v| ==> Letter(v[i]) || v[i] in " *_#`^~{}" }

  lemma SimpleIsAscii(v: Text)
    requires Simple(v)
    ensures Valid(v) && forall i :: 0 <= i <= |v| ==> Boundary(v, i)
  {
    forall i | 0 <= i < |v| ensures UnitOk(v, i) {
      assert v[i] < '\U{80}';
    }
  }

  lemma SpaceIs(v: Segment, i: nat)
    requires Simple(v) && i < |v|
    ensures Next(v, i) == i + 1 && Boundary(v, i)
    ensures SpaceAt(v, i) <==> v[i] == ' '
  {
    assert v[i] < '\U{80}';
    assert v[i..i + 1] == [v[i]];
    assert |[v[i]]| == 1;
  }

  // ---------------------------------------------------------------- no macros

  lemma {:induction false} NoStandard(v: Text, i: nat, k: nat)
    requires Simple(v) && k <= |PREFIXES|
    ensures StandardPrefix(v, i, k).None?
    decreases |PREFIXES| - k
  {
    if k < |PREFIXES| {
      PrefixHasColon(k);
      NoPrefix(v, i, PREFIXES[k].0);
      NoStandard(v, i, k + 1);
    }
  }

  lemma PrefixHasColon(k: nat)
    requires k < |PREFIXES|
    ensures ':' in PREFIXES[k].0
  {
    var p := PREFIXES[k].0;
    assert p[|p| - 1] == ':';
  }

  lemma NoPrefix(v: Text, i: nat, p: string)
    requires Simple(v) && ':' in p
    ensures !StartsIgnoringCase(v, i, p)
  {
    var j :| 0 <= j < |p| && p[j] == ':';
    assert i + |p| <= |v| ==> Lower(v[i + j]) != ':';
  }

  lemma NoNamed(v: Text, i: nat)
    requires Simple(v)
    ensures NamedPrefix(v, i).None?
  {
    hide StartsIgnoringCase, Simple, Boundary;
    assert "stem:["[4] == ':' && "latexmath:["[9] == ':' && "asciimath:["[9] == ':' && "pass:["[4] == ':';
    assert "xref:"[4] == ':' && "link:"[4] == ':';
    NoPrefix(v, i, "stem:[");
    NoPrefix(v, i, "latexmath:[");
    NoPrefix(v, i, "asciimath:[");
    NoPrefix(v, i, "pass:[");
    NoPrefix(v, i, "xref:");
    NoPrefix(v, i, "link:");
    NoStandard(v, i, 0);
  }

  lemma NoAddress(v: Segment, i: nat)
    requires Simple(v) && i < |v|
    ensures EmailEnd(v, i).None? && SchemeEnd(v, i).None?
  {
    hide Valid, StartsIgnoringCase;
    var at, colon := SkipWhile(v, i, EmailLocal), SkipWhile(v, i, SchemeUnit);
    assert at < |v| ==> v[at] != '@';
    assert colon < |v| ==> v[colon] != ':';
  }

  lemma NoMacro(v: Segment, i: nat)
    requires Simple(v) && i < |v|
    ensures !MacroCandidate(v, i) && !StartsWith(v, i, "<<") && !StartsWith(v, i, "[[") && !EscapesAnchor(v, i)
  {
    hide Valid, NamedPrefix, EmailEnd, SchemeEnd, StartsWith;
    NoNamed(v, i);
    NoAddress(v, i);
    E.FirstUnit(v, i, "<<");
    E.FirstUnit(v, i, "[[");
    E.FirstUnit(v, i, "\\[[");
    E.FirstUnit(v, i, "\\[#");
  }

  // ---------------------------------------------------------------- the passes before the main scan

  lemma {:induction false} NothingPreparsed(t: WordTable, v: Segment, i: nat)
    requires Simple(v) && i <= |v| && Boundary(v, i)
    ensures Preparse(t, v, i) == Preparsed([], {})
    decreases |v| - i
  {
    hide Find, CandidateOk, OpenBoundary;
    if i + 1 < |v| {
      assert v[i] != '+' && v[i] !in "'\"";
      assert PreparseAt(t, v, i) == (Next(v, i), None);
      NothingPreparsed(t, v, Next(v, i));
    }
  }

  lemma {:induction false} NothingPaired(t: WordTable, v: Segment, i: nat, pending: Option<nat>)
    requires i <= |v| && (pending.Some? ==> pending.value < i && v[pending.value] == '`')
    requires forall j :: i <= j < |v| ==> v[j] != '`'
    ensures Monospace(t, v, i, pending, {}) == Preparsed([], {})
    decreases |v| - i
  {
    if i < |v| {
      NothingPaired(t, v, i + 1, pending);
    }
  }

  // ---------------------------------------------------------------- words alone

  lemma WordsAreSimple(v: Text)
    requires Words(v)
    ensures Simple(v)
  {
  }

  lemma WordIsSkipped(t: WordTable, v: Segment, i: nat)
    requires Simple(v) && i < |v| && Boundary(v, i) && (Letter(v[i]) || v[i] == ' ')
    ensures VisitAt(t, v, i, false) == Skip
  {
    hide MacroCandidate, OpenBoundary, NextCloser, SpaceAt, Find, EscapesAnchor, MacroBoundaryBefore, Valid,
      Simple, StartsWith;
    NoMacro(v, i);
  }

  lemma {:induction false} WordsScanned(t: WordTable, v: Segment, i: nat)
    requires Simple(v) && i <= |v| && Boundary(v, i) && forall j :: i <= j < |v| ==> Letter(v[j]) || v[j] == ' '
    ensures MainScan(t, v, i, {}) == Scanned([], [])
    decreases |v| - i
  {
    hide VisitAt, CandidateOk, MainScan;
    if i < |v| {
      WordIsSkipped(t, v, i);
      E.ScanUnfolds(t, v, i, {});
      SpaceIs(v, i);
      WordsScanned(t, v, i + 1);
    } else {
      E.ScanStops(t, v, {});
    }
  }

  lemma WordsHaveNone(t: WordTable, v: Segment)
    requires Words(v)
    ensures Candidates(t, v) == []
  {
    hide Preparse, Monospace, MainScan, CandidateOk;
    WordsAreSimple(v);
    SimpleIsAscii(v);
    NothingPreparsed(t, v, 0);
    NothingPaired(t, v, 0, None);
    WordsScanned(t, v, 0);
    var none: seq<Candidate> := [];
    assert none + none + none == none;
    assert ClosedAll(t, v, []) == [];
  }

  /** Words are one text. */
  lemma WordsAreText(t: WordTable, v: Segment, base: nat, cfg: Config, depth: nat)
    requires Words(v) && v != []
    ensures ParsedSegment(t, v, base, cfg, depth).inlines == [PlainText(Range(base, base + |v|), v)]
  {
    hide Candidates, Ready, StateAt;
    WordsHaveNone(t, v);
    ParsedIs(t, v, base, cfg, depth);
    NothingFirst(t, v, base, cfg, depth);
    StartIsReady(v, base);
    FinishedIs(v, base, START);
    assert v[0..|v|] == v;
  }

  // ---------------------------------------------------------------- a marked word

  function CloserOf(m: char): char { if m == '{' then '}' else m }

  /** Words, a marker, a word, its closer, words: the marker has a blank or nothing in front, the closer
      has a blank or nothing behind. */
  predicate MarkedWord(v: Text, a: Text, m: char, b: Text, c: Text) {
    && v == a + [m] + b + [CloserOf(m)] + c && m in "*_#`^~{"
    && Words(a) && Letters(b) && b != [] && Words(c)
    && (a == [] || a[|a| - 1] == ' ') && (c == [] || c[0] == ' ')
  }

  lemma MarkedUnits(v: Text, a: Text, m: char, b: Text, c: Text)
    requires MarkedWord(v, a, m, b, c)
    ensures var p, q := |a|, |a| + 1 + |b|;
      && p + 1 < q && m in "*_#`^~{" && |v| == q + 1 + |c| && v[p] == m && v[q] == CloserOf(m)
      && (forall i :: 0 <= i < p || q < i < |v| ==> Letter(v[i]) || v[i] == ' ')
      && (forall i :: p < i < q ==> Letter(v[i]))
      && (0 < p ==> v[p - 1] == ' ') && (q + 1 < |v| ==> v[q + 1] == ' ')
      && v[..p] == a && v[p + 1..q] == b && v[q + 1..] == c && Simple(v)
  {
    var p, q := |a|, |a| + 1 + |b|;
    assert forall i :: 0 <= i < p ==> v[i] == a[i];
    assert forall i :: p < i < q ==> v[i] == b[i - p - 1];
    assert forall i :: q < i < |v| ==> v[i] == c[i - q - 1];
  }

  lemma BeforeIs(v: Segment, i: nat)
    requires Simple(v) && 0 < i <= |v|
    ensures Previous(v, i) == i - 1 && CharBefore(v, i) == Some([v[i - 1]])
  {
    assert v[i - 1] < '\U{80}';
    assert v[i - 1..i] == [v[i - 1]];
  }

  lemma LettersAreWords(t: WordTable, m: char, c: char)
    ensures Letter(c) ==> WordCharacter(t, m, [c])
    ensures c == ' ' ==> !WordCharacter(t, m, [c])
  {
  }

  lemma OpensThere(t: WordTable, v: Segment, a: Text, m: char, b: Text, c: Text)
    requires MarkedWord(v, a, m, b, c)
    ensures var p := |a|; p < |v| && v[p] == m && !Paired(v, p) && MarkerOpens(t, v, p)
    ensures MarkerUnit(m) ==> OpenBoundary(t, v, |a|)
  {
    hide Valid, MarkedWord, WordCharacter, SpaceAt, Previous, CharBefore, Boundary, Simple;
    var p := |a|;
    MarkedUnits(v, a, m, b, c);
    SpaceIs(v, p + 1);
    if 0 < p {
      BeforeIs(v, p);
      LettersAreWords(t, m, ' ');
    }
    NothingBefore(v);
  }

  lemma NothingBefore(v: Segment)
    ensures CharBefore(v, 0) == None
  {
  }

  /** A marker unit between a letter and a blank or the end closes, and does not open. */
  lemma ClosesAt(t: WordTable, v: Segment, q: nat)
    requires Simple(v) && 0 < q < |v| && MarkerUnit(v[q]) && Letter(v[q - 1]) && (q + 1 < |v| ==> v[q + 1] == ' ')
    ensures CloseBoundary(t, v, q) && !OpenBoundary(t, v, q) && !Paired(v, q)
  {
    hide Valid, Boundary, Previous, WordCharacter, SpaceAt, CharBefore, Simple;
    SpaceIs(v, q - 1);
    BeforeIs(v, q);
    assert v[q - 1..q] == [v[q - 1]] && v[q - 1] != v[q];
    if q + 1 < |v| {
      SpaceIs(v, q + 1);
      LettersAreWords(t, v[q], ' ');
      assert v[q + 1..q + 2] == [v[q + 1]];
    }
  }

  lemma ClosesThere(t: WordTable, v: Segment, a: Text, m: char, b: Text, c: Text)
    requires MarkedWord(v, a, m, b, c)
    ensures var q := |a| + 1 + |b|;
      && q < |v| && R.Closes(t, v, m, Constrained, q)
      && (MarkerUnit(m) ==> CloseBoundary(t, v, q)) && !(MarkerUnit(v[q]) && Paired(v, q)) && !MarkerOpens(t, v, q)
  {
    hide Valid, MarkedWord, CloseBoundary, OpenBoundary, Paired, SpaceAt, Simple;
    var q := |a| + 1 + |b|;
    MarkedUnits(v, a, m, b, c);
    assert Letter(v[q - 1]);
    if MarkerUnit(v[q]) {
      ClosesAt(t, v, q);
    }
    if q + 1 < |v| {
      SpaceIs(v, q + 1);
    }
  }

  // ---------------------------------------------------------------- its candidate

  lemma {:induction false} NearestIs(t: WordTable, v: Segment, m: char, q: nat, i: nat)
    requires i <= q < |v| && R.Closes(t, v, m, Constrained, q) && m in "*_#`^~{"
    requires forall j :: i <= j < q ==> Letter(v[j])
    ensures NextCloser(t, v, m, Constrained, i) == Some(q)
    decreases q - i
  {
    hide CloseBoundary;
    if i < q {
      assert Letter(v[i]);
      NearestIs(t, v, m, q, i + 1);
    }
  }

  lemma RunEnds(v: Text, i: nat)
    requires i < |v| && v[i] == '`' && (i + 1 < |v| ==> v[i + 1] != '`')
    ensures SkipWhile(v, i, Backtick) == i + 1
  {
    assert i + 1 < |v| ==> SkipWhile(v, i + 1, Backtick) == i + 1;
  }

  /** Backticks that open and close do not guard each other. */
  lemma {:induction false} MarkedMonospace(t: WordTable, v: Segment, a: Text, m: char, b: Text, c: Text, i: nat)
    requires MarkedWord(v, a, m, b, c) && i <= |a|
    ensures Monospace(t, v, i, None, {}) == Preparsed([], {})
    decreases |a| - i
  {
    hide Valid, MarkedWord, Simple, OpenBoundary, CloseBoundary, IsEscaped;
    MarkedUnits(v, a, m, b, c);
    var p, q := |a|, |a| + 1 + |b|;
    if i < p {
      MarkedMonospace(t, v, a, m, b, c, i + 1);
    } else if m == '`' {
      RunEnds(v, p);
      RunEnds(v, q);
      OpensThere(t, v, a, m, b, c);
      ClosesThere(t, v, a, m, b, c);
      BetweenBackticks(t, v, p, q, p + 1);
      NothingPaired(t, v, q + 1, None);
    } else {
      NothingPaired(t, v, p, None);
    }
  }

  lemma {:induction false} BetweenBackticks(t: WordTable, v: Segment, p: nat, q: nat, i: nat)
    requires p < i <= q < |v| && v[p] == v[q] == '`' && forall j :: p < j < q ==> Letter(v[j])
    requires SkipWhile(v, q, Backtick) == q + 1 && OpenBoundary(t, v, p) && CloseBoundary(t, v, q)
    ensures Monospace(t, v, i, Some(p), {}) == Monospace(t, v, q + 1, None, {})
    decreases q - i
  {
    hide OpenBoundary, CloseBoundary, IsEscaped, SkipWhile;
    if i < q {
      assert Letter(v[i]);
      BetweenBackticks(t, v, p, q, i + 1);
    }
  }

  lemma MarkerVisited(t: WordTable, v: Segment, a: Text, m: char, b: Text, c: Text)
    requires MarkedWord(v, a, m, b, c)
    ensures Boundary(v, |a|) && |a| < |v| && VisitAt(t, v, |a|, false) == Found(Marker(|a|, m, Constrained, None))
  {
    hide Valid, MarkedWord, Simple, MacroCandidate, NextCloser, Find, EscapesAnchor, MacroBoundaryBefore, StartsWith,
      MarkerOpens,
      Paired;
    MarkedUnits(v, a, m, b, c);
    SpaceIs(v, |a|);
    NoMacro(v, |a|);
    OpensThere(t, v, a, m, b, c);
  }

  lemma CloserSkipped(t: WordTable, v: Segment, a: Text, m: char, b: Text, c: Text)
    requires MarkedWord(v, a, m, b, c)
    ensures var q := |a| + 1 + |b|; q < |v| && Boundary(v, q) && VisitAt(t, v, q, false) == Skip
  {
    hide Valid, MarkedWord, Simple, MacroCandidate, NextCloser, Find, EscapesAnchor, MacroBoundaryBefore, StartsWith,
      MarkerOpens,
      Paired, R.Closes;
    MarkedUnits(v, a, m, b, c);
    SpaceIs(v, |a| + 1 + |b|);
    NoMacro(v, |a| + 1 + |b|);
    ClosesThere(t, v, a, m, b, c);
  }

  lemma {:induction false} MarkedScan(t: WordTable, v: Segment, a: Text, m: char, b: Text, c: Text, i: nat)
    requires MarkedWord(v, a, m, b, c) && i <= |v|
    ensures Boundary(v, i)
    ensures MainScan(t, v, i, {}) == Scanned(if i <= |a| then [Marker(|a|, m, Constrained, None)] else [], [])
    decreases |v| - i
  {
    hide Valid, MarkedWord, VisitAt, CandidateOk, MainScan, Simple, Boundary;
    MarkedUnits(v, a, m, b, c);
    if i < |v| {
      SpaceIs(v, i);
      MarkedScan(t, v, a, m, b, c, i + 1);
      E.ScanUnfolds(t, v, i, {});
      if i == |a| {
        MarkerVisited(t, v, a, m, b, c);
      } else if i == |a| + 1 + |b| {
        CloserSkipped(t, v, a, m, b, c);
      } else {
        WordIsSkipped(t, v, i);
      }
    } else {
      EndBoundary(v);
      E.ScanStops(t, v, {});
    }
  }

  lemma EndBoundary(v: Text)
    ensures Boundary(v, |v|)
  {
  }

  lemma OneCandidate(t: WordTable, v: Segment, a: Text, m: char, b: Text, c: Text)
    requires MarkedWord(v, a, m, b, c)
    ensures Candidates(t, v) == [Marker(|a|, m, Constrained, Some(|a| + 1 + |b|))]
  {
    hide Preparse, Monospace, MainScan, CandidateOk, MarkedWord, Simple, NextCloser, Candidates, R.Closes;
    MarkedUnits(v, a, m, b, c);
    SimpleIsAscii(v);
    NothingPreparsed(t, v, 0);
    MarkedMonospace(t, v, a, m, b, c, 0);
    MarkedScan(t, v, a, m, b, c, 0);
    OneScanned(t, v, Marker(|a|, m, Constrained, None));
    ClosesThere(t, v, a, m, b, c);
    NearestIs(t, v, m, |a| + 1 + |b|, |a| + 1);
  }

  /** When the main scan alone finds one candidate, that is all, with its closer. */
  lemma OneScanned(t: WordTable, v: Segment, found: Candidate)
    requires Boundary(v, 0) && Preparse(t, v, 0) == Preparsed([], {})
      && Monospace(t, v, 0, None, {}) == Preparsed([], {})
    requires MainScan(t, v, 0, {}) == Scanned([found], [])
    ensures Candidates(t, v) == [Closed(t, v, found)]
  {
    hide Preparse, Monospace, MainScan, CandidateOk, Closed, SortByOpen;
    var none: seq<Candidate> := [];
    assert none + none + [found] == [found];
    assert ClosedAll(t, v, [found]) == [Closed(t, v, found)];
    assert [Closed(t, v, found)] + Misplacements([]) == [Closed(t, v, found)];
    SortOne(Closed(t, v, found));
  }

  lemma SortOne(c: Candidate)
    ensures SortByOpen([c]) == [c]
  {
    assert [c][1..] == [];
    assert SortByOpen([]) == [];
  }

  // ---------------------------------------------------------------- the theorem

  function Piece(at: nat, v: Text): seq<Inline> {
    if v == [] then [] else [PlainText(Range(at, at + |v|), v)]
  }

  /** What the marked word is: monospace, an attribute, or a style over the word, unless that is too
      deep; then it is text as it stands. */
  ghost predicate MarkedAs(base: nat, tooDeep: bool, m: char, b: Text, n: Inline) {
    var range, content := Range(base, base + |b| + 2), Range(base + 1, base + 1 + |b|);
    if m == '`' then n == Literal(range, content, b)
    else if m == '{' then n == AttributeReference(range, content, b)
    else if tooDeep then n == PlainText(range, [m] + b + [m])
    else n.Styled? && M.Marks(m, n.style) && n == Styled(n.style, range, content, Piece(base + 1, b))
  }

  lemma WordPairs(v: Segment, a: Text, m: char, b: Text, c: Text)
    requires MarkedWord(v, a, m, b, c)
    ensures M.Pairs(v, Marker(|a|, m, Constrained, Some(|a| + 1 + |b|)))
  {
    hide Valid, MarkedWord, SpaceAt, CounterReference;
    MarkedUnits(v, a, m, b, c);
    forall i | |a| < i <= |a| + |b| ensures !SpaceAt(v, i) {
      SpaceIs(v, i);
    }
    assert v[|a| + 1..|a| + 1 + |b|] == b;
    assert forall i :: 0 <= i < |b| ==> Letter(v[|a| + 1 + i]) && b[i] == v[|a| + 1 + i];
  }

  lemma WordIs(v: Segment, a: Text, m: char, b: Text, c: Text)
    requires MarkedWord(v, a, m, b, c)
    ensures var p, q := |a|, |a| + 1 + |b|;
      p + 1 < q < |v| && v[p] == m && v[q] == CloserOf(m) && v[p + 1..q] == b && m in "*_#`^~{"
    ensures Letters(b) && b != [] && Words(b) && Valid(b) && v[|a| + 1 + |b| + 1..] == c && v[..|a|] == a
  {
    hide Valid;
    MarkedUnits(v, a, m, b, c);
    WordsAreSimple(b);
    SimpleIsAscii(b);
  }

  lemma NodeIs(t: WordTable, v: Segment, base: nat, cfg: Config, depth: nat, a: Text, m: char, b: Text,
      c: Text, n: Inline)
    requires MarkedWord(v, a, m, b, c)
    requires var x := Marker(|a|, m, Constrained, Some(|a| + 1 + |b|));
      M.Pairs(v, x) && M.MarkedNode(t, v, base, cfg, depth, x, n)
    ensures MarkedAs(base + |a|, cfg.maxDepth <= depth, m, b, n)
  {
    hide Valid, MarkedWord, ParsedSegment, M.Pairs, M.Monospaced, Letters, Words;
    WordIs(v, a, m, b, c);
    var p, q := |a|, |a| + 1 + |b|;
    if m == '`' {
      NoPlus(v, base, p + 1, q, n);
    } else if m != '{' && cfg.maxDepth <= depth {
      AllOfIt(v, p, q);
    } else if m != '{' {
      WordsAreText(t, b, base + p + 1, cfg, depth + 1);
    }
  }

  lemma NoPlus(v: Segment, base: nat, i: nat, j: nat, n: Inline)
    requires i < j <= |v| && Letters(v[i..j]) && M.Monospaced(v, base, i, j, n)
    ensures n == Literal(n.range, Range(base + i, base + j), v[i..j])
  {
    assert Letter(v[i..j][0]);
  }

  lemma AllOfIt(v: Segment, p: nat, q: nat)
    requires p < q < |v|
    ensures v[p..q + 1] == [v[p]] + v[p + 1..q] + [v[q]]
  {
  }

  /** The scanner after the one candidate. */
  lemma MarkedAfter(t: WordTable, v: Segment, base: nat, cfg: Config, depth: nat, a: Text, m: char, b: Text, c: Text)
      returns (n: Inline)
    requires MarkedWord(v, a, m, b, c)
    ensures |Candidates(t, v)| == 1
    ensures var after := StateAt(t, v, base, cfg, depth, 1);
      && after.plainStart == |a| + |b| + 2 && after.inlines == Piece(base, a) + [n]
      && MarkedAs(base + |a|, cfg.maxDepth <= depth, m, b, n)
  {
    hide Valid, MarkedWord, Candidates, StateAt, Ready, M.Pairs, M.MarkedNode, Letters, Words, NextCloser, CandidateOk,
      WithText, MarkedAs, Piece;
    var p := |a|;
    WordIs(v, a, m, b, c);
    OneCandidate(t, v, a, m, b, c);
    NothingFirst(t, v, base, cfg, depth);
    NoEscape(v, a, m, b, c);
    WordPairs(v, a, m, b, c);
    M.MarkerStep(t, v, base, cfg, depth, 0);
    var after := StateAt(t, v, base, cfg, depth, 1);
    n := after.inlines[|after.inlines| - 1];
    NodeIs(t, v, base, cfg, depth, a, m, b, c, n);
    TextBefore(v, base, p);
    assert after.inlines == Piece(base, a) + [n];
  }

  /** Words around a marked word are text, and the marked word is what its marker says. */
  lemma MarkedWordParses(t: WordTable, v: Segment, base: nat, cfg: Config, depth: nat, a: Text, m: char,
      b: Text, c: Text)
      returns (n: Inline)
    requires MarkedWord(v, a, m, b, c)
    ensures ParsedSegment(t, v, base, cfg, depth).inlines == Piece(base, a) + [n] + Piece(base + |a| + |b| + 2, c)
    ensures MarkedAs(base + |a|, cfg.maxDepth <= depth, m, b, n)
  {
    hide Valid, MarkedWord, Candidates, StateAt, Ready, ParsedSegment, Letters, Words, MarkedAs;
    WordIs(v, a, m, b, c);
    n := MarkedAfter(t, v, base, cfg, depth, a, m, b, c);
    ParsedIs(t, v, base, cfg, depth);
    FinishedIs(v, base, StateAt(t, v, base, cfg, depth, 1));
    assert v[|a| + |b| + 2..|v|] == c;
  }

  lemma NoEscape(v: Segment, a: Text, m: char, b: Text, c: Text)
    requires MarkedWord(v, a, m, b, c)
    ensures |a| <= |v| && MarkerEscapeWidth(v, |a|, Constrained) == 0
  {
    MarkedUnits(v, a, m, b, c);
  }

  lemma TextBefore(v: Segment, base: nat, p: nat)
    requires p <= |v|
    ensures WithText(v, base, START, p) == Piece(base, v[..p])
  {
    assert v[0..p] == v[..p];
  }
}
