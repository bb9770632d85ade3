/** The run of the inline scanner over the candidates: what it has when it comes to each of them. */
module InlineRun {
  import opened Text
  import opened InlineModel
  import opened InlineGrammar
  import opened InlineRecognition
  import opened InlineCandidates
  import opened InlineParser

  /** What the scanner has when it comes to the candidate `j`. */
  function StateAt(t: WordTable, v: Segment, base: nat, cfg: Config, depth: nat, j: nat): (r: Scan)
    requires j <= |Candidates(t, v)|
    ensures Ready(v, base, r)
  {
    hide Indexes, IndexesLabels, CandidateOk, Ready, Candidates, DelimitersOf, LabelsOf, Step;
    LabelsIndexed(v);
    StartIsReady(v, base);
    if j == 0 then START
    else
      var st, x := StateAt(t, v, base, cfg, depth, j - 1), Candidates(t, v)[j - 1];
      assert CandidateOk(t, v, x);
      if x.open < st.cursor then st else Step(t, v, base, cfg, depth, DelimitersOf(v), LabelsOf(v), st, x)
  }

  /** The candidates that the scanner has not passed when it comes to them. */
  predicate Reached(t: WordTable, v: Segment, base: nat, cfg: Config, depth: nat, j: nat)
    requires j < |Candidates(t, v)|
  {
    StateAt(t, v, base, cfg, depth, j).cursor <= Candidates(t, v)[j].open
  }

  lemma {:induction false} RestConsumed(t: WordTable, v: Segment, base: nat, cfg: Config, depth: nat, j: nat)
    requires j <= |Candidates(t, v)|
    ensures Indexes(DelimitersOf(v), v) && IndexesLabels(LabelsOf(v), v) && Ready(v, base, START)
    ensures AllOk(t, v, Candidates(t, v)[j..])
    ensures Consume(t, v, base, cfg, depth, DelimitersOf(v), LabelsOf(v), Candidates(t, v), START)
      == Consume(t, v, base, cfg, depth, DelimitersOf(v), LabelsOf(v), Candidates(t, v)[j..],
        StateAt(t, v, base, cfg, depth, j))
    decreases j
  {
    hide Indexes, IndexesLabels, CandidateOk, Ready, Candidates, DelimitersOf, LabelsOf, Step;
    LabelsIndexed(v);
    StartIsReady(v, base);
    var cs := Candidates(t, v);
    if j == 0 {
      assert cs[0..] == cs;
    } else {
      RestConsumed(t, v, base, cfg, depth, j - 1);
      assert cs[j - 1..][0] == cs[j - 1] && cs[j - 1..][1..] == cs[j..];
    }
  }

  lemma ParsedIs(t: WordTable, v: Segment, base: nat, cfg: Config, depth: nat)
    ensures var end := StateAt(t, v, base, cfg, depth, |Candidates(t, v)|);
      ParsedSegment(t, v, base, cfg, depth) == Finished(v, base, end)
  {
    hide Indexes, IndexesLabels, CandidateOk, Ready, Candidates, DelimitersOf, LabelsOf, Finished, StateAt;
    LabelsIndexed(v);
    StartIsReady(v, base);
    var cs := Candidates(t, v);
    RestConsumed(t, v, base, cfg, depth, |cs|);
    assert cs[|cs|..] == [];
  }

  // ---------------------------------------------------------------- nodes are only added

  /** Nodes stay, and a new one is plain text or starts no earlier than the cursor stood. */
  ghost predicate Grows(base: nat, st: Scan, after: Scan) {
    && st.inlines <= after.inlines && st.cursor <= after.cursor
    && forall i :: |st.inlines| <= i < |after.inlines| ==>
         after.inlines[i].PlainText? || base + st.cursor <= after.inlines[i].range.start
  }

  /** One step: what it adds and is not plain text starts where its candidate does. */
  ghost predicate Adds(base: nat, st: Scan, after: Scan, open: nat) {
    && Grows(base, st, after)
    && forall i :: |st.inlines| <= i < |after.inlines| ==>
         after.inlines[i].PlainText? || after.inlines[i].range.start == base + open
  }

  lemma GrowsOn(base: nat, a: Scan, b: Scan, c: Scan)
    requires Grows(base, a, b) && Grows(base, b, c)
    ensures Grows(base, a, c)
  {
    assert forall i :: 0 <= i < |b.inlines| ==> c.inlines[i] == b.inlines[i];
  }

  /** The nodes with the pending text up to `end`. */
  function WithText(v: Segment, base: nat, st: Scan, end: nat): seq<Inline>
    requires st.plainStart <= end <= |v|
  {
    if st.plainStart == end then st.inlines
    else st.inlines + [PlainText(Range(base + st.plainStart, base + end), v[st.plainStart..end])]
  }

  lemma EmitIs(v: Segment, base: nat, st: Scan, open: nat, end: nat, b: Built)
    requires Ready(v, base, st) && st.plainStart <= open <= |v| && end <= |v| && Boundary(v, open)
    requires Spans(b, v, base, open, end) && SafeStart(v, end)
    ensures Emit(v, base, st, open, end, b)
      == Scan(WithText(v, base, st, open) + [b.node], st.problems + b.problems, end, end, st.suppressed)
    ensures st.cursor <= end && b.node.PlainText? ==> forall at :: Adds(base, st, Emit(v, base, st, open, end, b), at)
    ensures st.cursor <= end && st.cursor <= open ==> Adds(base, st, Emit(v, base, st, open, end, b), open)
  {
    hide Valid, UnitOk, Faithful, Tiles, SafeStart, Boundary;
  }

  lemma EscapedGrows(v: Segment, base: nat, st: Scan, open: nat, end: nat)
    requires Ready(v, base, st) && st.cursor <= open < end <= |v| && Boundary(v, open) && Boundary(v, end)
    requires SafeStart(v, end) && MacroOpens(v, open) && IsEscaped(v, open)
    ensures var r := StepEscaped(v, base, st, open, end);
      Adds(base, st, r, open) && r.cursor == end && r.suppressed == st.suppressed
  {
    hide MacroOpens, Spans, Tiles, SafeStart, Emit, Valid, IsEscaped, Ready, Adds, WithText, Boundary;
    EscapedBy(v, open);
    EscapeFits(v, base, st, open, 1);
    EmitIs(v, base, st, open - 1, end, EscapedText(v, base, open, end, 1));
    ReadyBounds(v, base, st);
  }

  lemma ReadyBounds(v: Segment, base: nat, st: Scan)
    requires Ready(v, base, st)
    ensures st.plainStart <= st.cursor <= |v|
  {
  }

  lemma MacroGrows(t: WordTable, v: Segment, base: nat, cfg: Config, depth: nat, d: Delimiters, u: seq<nat>, st: Scan,
      open: nat)
    requires Indexes(d, v) && IndexesLabels(u, v)
    requires Ready(v, base, st) && st.cursor <= open < |v| && Boundary(v, open) && MacroOpens(v, open)
    ensures var r := StepMacro(t, v, base, cfg, depth, d, u, st, open);
      Adds(base, st, r, open) && open < r.cursor && r.suppressed == st.suppressed
  {
    hide Indexes, IndexesLabels, MacroOpens, RecognizeMacro, MacroOk, Tiles, SafeStart, Emit, LowerMacro, Ready,
      Valid, IsEscaped,
      StepEscaped, Spans, WithText, Boundary;
    ReadyBounds(v, base, st);
    match RecognizeMacro(v, open, d, u) {
      case Matched(k) =>
        MacroEnds(v, k);
        if IsEscaped(v, open) {
          EscapedGrows(v, base, st, open, k.end);
        } else {
          EmitIs(v, base, st, open, k.end, LowerMacro(t, v, base, cfg, depth, k));
        }
      case Recovered(next, kind) =>
        if IsEscaped(v, open) {
          EndIsSafe(v);
          EndIsBoundary(v);
          EscapedGrows(v, base, st, open, |v|);
        }
      case Rejected(next) =>
    }
  }

  lemma EndIsBoundary(v: Segment)
    ensures Boundary(v, |v|)
  {
  }

  lemma IndexOfIs(s: seq<nat>, x: nat)
    ensures IndexOf(s, x).Some? <==> x in s
  {
  }

  /** Which closers stay literal after an escaped marker: a closer that has been reached is taken out,
      an opener that would have been matched puts its own in. */
  function StillSuppressed(t: WordTable, v: Segment, st: Scan, c: Candidate): seq<nat>
    requires c.Marker? && CandidateOk(t, v, c)
  {
    var suppressed := IndexOf(st.suppressed, c.open);
    var k := RecognizeMarker(t, v, c.open, c.marker, c.form, c.close);
    if suppressed.Some? then SwapRemove(st.suppressed, suppressed.value)
    else if k.Matched? then st.suppressed + [k.token.close]
    else st.suppressed
  }

  /** A marker that is escaped, or that closes an escaped one, is text. */
  lemma LiteralMarker(t: WordTable, v: Segment, base: nat, cfg: Config, depth: nat, st: Scan, c: Candidate)
    requires Ready(v, base, st) && c.Marker? && st.cursor <= c.open && CandidateOk(t, v, c)
    requires MarkerEscapeWidth(v, c.open, c.form) > 0 || c.open in st.suppressed
    ensures var escape, end := MarkerEscapeWidth(v, c.open, c.form), c.open + c.form.Width();
      && st.plainStart + escape <= c.open && end <= |v|
      && var after := StepMarker(t, v, base, cfg, depth, st, c);
         && after.inlines == WithText(v, base, st, c.open - escape) + [LiteralNode(v, base, c.open, end, escape)]
         && after.cursor == after.plainStart == end && after.suppressed == StillSuppressed(t, v, st, c)
         && Adds(base, st, after, c.open)
  {
    hide Tiles, SafeStart, StepLiteral, LowerMarker, RecognizeMarker, Spans, NextCloser, UnitOk, Ready, WithText, Valid,
      Paired, MarkerEscapeWidth, SwapRemove, Adds, IndexOf, Boundary, LiteralNode;
    ReadyBounds(v, base, st);
    IndexOfIs(st.suppressed, c.open);
    var escape, end := MarkerEscapeWidth(v, c.open, c.form), c.open + c.form.Width();
    var still := StillSuppressed(t, v, st, c);
    MarkerStarts(v, c.open, c.form);
    MarkerEndsSafely(t, v, c);
    LiteralFits(v, base, st, c, escape);
    SuppressedReady(v, base, st, still);
    LiteralIs(v, base, st.(suppressed := still), c.open, end, escape);
    WithoutSuppressed(v, base, st, still, c.open - escape, StepMarker(t, v, base, cfg, depth, st, c));
  }

  /** The text of a literal marker, whose range covers its backslashes. */
  function LiteralNode(v: Segment, base: nat, open: nat, end: nat, escape: nat): Inline
    requires escape <= open <= end <= |v|
  {
    PlainText(Range(base + open - escape, base + end), v[open..end])
  }

  lemma WithoutSuppressed(v: Segment, base: nat, st: Scan, still: seq<nat>, end: nat, after: Scan)
    requires st.plainStart <= end <= |v|
    ensures WithText(v, base, st.(suppressed := still), end) == WithText(v, base, st, end)
    ensures forall at :: Adds(base, st.(suppressed := still), after, at) ==> Adds(base, st, after, at)
  {
  }

  lemma LiteralIs(v: Segment, base: nat, st: Scan, open: nat, end: nat, escape: nat)
    requires Ready(v, base, st) && escape <= 2 && st.plainStart + escape <= open < end <= |v| && st.cursor <= open
    requires Boundary(v, open - escape) && Boundary(v, open) && Boundary(v, end) && SafeStart(v, end)
    requires (escape == 2 ==> end == open + 2) && forall j :: open - escape <= j < open ==> v[j] == '\\'
    ensures var r := StepLiteral(v, base, st, open, end, escape);
      && r.inlines == WithText(v, base, st, open - escape) + [LiteralNode(v, base, open, end, escape)]
      && r.cursor == r.plainStart == end && r.suppressed == st.suppressed && Adds(base, st, r, open)
  {
    hide Tiles, SafeStart, Emit, Spans, UnitOk, Valid, Boundary, Ready, WithText, Faithful;
    EmitIs(v, base, st, open - escape, end, EscapedText(v, base, open, end, escape));
  }

  /** A marker that is neither escaped nor suppressed. */
  lemma OpenMarker(t: WordTable, v: Segment, base: nat, cfg: Config, depth: nat, st: Scan, c: Candidate)
    requires Ready(v, base, st) && c.Marker? && st.cursor <= c.open && CandidateOk(t, v, c)
    requires MarkerEscapeWidth(v, c.open, c.form) == 0 && c.open !in st.suppressed
    ensures st.plainStart <= c.open
    ensures var k := RecognizeMarker(t, v, c.open, c.marker, c.form, c.close);
      var after := StepMarker(t, v, base, cfg, depth, st, c);
      && Adds(base, st, after, c.open) && after.suppressed == st.suppressed
      && (if k.Matched? then
            && after.inlines == WithText(v, base, st, c.open) + [LowerMarker(t, v, base, cfg, depth, k.token).node]
            && after.cursor == after.plainStart == k.token.end
          else after.inlines == st.inlines && after.cursor == k.next && after.plainStart == st.plainStart)
  {
    hide Tiles, SafeStart, Emit, LowerMarker, RecognizeMarker, Spans, NextCloser, UnitOk, Ready, WithText,
      Valid, Paired,
      MarkerEscapeWidth, SwapRemove, IndexOf, Boundary;
    ReadyBounds(v, base, st);
    IndexOfIs(st.suppressed, c.open);
    MarkerStarts(v, c.open, c.form);
    var k := RecognizeMarker(t, v, c.open, c.marker, c.form, c.close);
    if k.Matched? {
      TokenEnds(v, k.token);
      EmitIs(v, base, st, c.open, k.token.end, LowerMarker(t, v, base, cfg, depth, k.token));
    }
  }

  lemma TokenEnds(v: Segment, k: MarkerToken)
    requires MarkerTokenOk(v, k)
    ensures k.open < k.end <= |v| && SafeStart(v, k.end)
  {
  }

  lemma MarkerGrows(t: WordTable, v: Segment, base: nat, cfg: Config, depth: nat, st: Scan, c: Candidate)
    requires Ready(v, base, st) && c.Marker? && st.cursor <= c.open && CandidateOk(t, v, c)
    ensures var r := StepMarker(t, v, base, cfg, depth, st, c); Adds(base, st, r, c.open) && c.open < r.cursor
  {
    hide Ready, StepMarker, MarkerEscapeWidth, WithText, RecognizeMarker, LowerMarker, Adds, StillSuppressed;
    if MarkerEscapeWidth(v, c.open, c.form) > 0 || c.open in st.suppressed {
      LiteralMarker(t, v, base, cfg, depth, st, c);
    } else {
      OpenMarker(t, v, base, cfg, depth, st, c);
    }
  }

  lemma MarkerEndsSafely(t: WordTable, v: Segment, c: Candidate)
    requires c.Marker? && CandidateOk(t, v, c)
    ensures var end := c.open + c.form.Width(); end <= |v| && Boundary(v, end) && SafeStart(v, end)
  {
    hide NextCloser;
    MarkerStarts(v, c.open, c.form);
    AsciiEnd(v, c.open + c.form.Width() - 1);
  }

  /** What is suppressed has no part in the tiling. */
  lemma SuppressedReady(v: Segment, base: nat, st: Scan, still: seq<nat>)
    requires Ready(v, base, st)
    ensures Ready(v, base, st.(suppressed := still))
  {
  }

  /** Quotations and passthroughs are nodes, whatever stands before them. */
  lemma SpanStep(t: WordTable, v: Segment, base: nat, cfg: Config, depth: nat, st: Scan, c: Candidate)
    requires Ready(v, base, st) && (c.TypographicQuote? || c.PassthroughAt?) && st.cursor <= c.open
      && CandidateOk(t, v, c)
    ensures c.open < c.contentStart <= c.contentEnd < c.end <= |v| && st.plainStart <= c.open
    ensures Boundary(v, c.contentStart) && Boundary(v, c.contentEnd) && Valid(v[c.contentStart..c.contentEnd])
    ensures var after := StepSpan(t, v, base, cfg, depth, st, c);
      && after.inlines == WithText(v, base, st, c.open) + [SpanNode(t, v, base, cfg, depth, c)]
      && after.cursor == after.plainStart == c.end && after.suppressed == st.suppressed
      && Adds(base, st, after, c.open)
  {
    hide CandidateOk, Tiles, SafeStart, Emit, Ready, WithText, Valid, Boundary, ParsedSegment, Spans;
    SpanBounds(t, v, c);
    ReadyBounds(v, base, st);
    SliceIsValid(v, c.contentStart, c.contentEnd);
    var r := StepSpan(t, v, base, cfg, depth, st, c);
    if c.PassthroughAt? {
      PassthroughSpans(v, base, c);
      EmitIs(v, base, st, c.open, c.end, Built(PassthroughNode(v, base, c), []));
    } else {
      var inner := Nested(t, v, base, cfg, depth + 1, c.contentStart, c.contentEnd);
      var style := if c.quote == '"' then CurvedDoubleQuote else CurvedSingleQuote;
      EmitIs(v, base, st, c.open, c.end,
        StyledSpan(v, base, style, c.open, c.contentStart, c.contentEnd, c.end, inner));
    }
  }

  function PassthroughNode(v: Segment, base: nat, c: Candidate): Inline
    requires c.PassthroughAt? && c.open <= c.contentStart <= c.contentEnd <= c.end <= |v|
  {
    var mode := if c.width == 1 then SinglePlus else if c.width == 2 then DoublePlus else TriplePlus;
    Passthrough(mode, Range(base + c.open, base + c.end), Range(base + c.contentStart, base + c.contentEnd),
                v[c.contentStart..c.contentEnd])
  }

  lemma PassthroughSpans(v: Segment, base: nat, c: Candidate)
    requires c.PassthroughAt? && c.open < c.contentStart <= c.contentEnd < c.end <= |v|
    requires Boundary(v, c.open) && Boundary(v, c.contentStart) && Boundary(v, c.contentEnd) && Boundary(v, c.end)
    ensures Spans(Built(PassthroughNode(v, base, c), []), v, base, c.open, c.end)
  {
    hide Boundary, Tiles, Valid;
  }

  /** What a quotation or passthrough is: the text between its delimiters, parsed in a quotation. */
  function SpanNode(t: WordTable, v: Segment, base: nat, cfg: Config, depth: nat, c: Candidate): Inline
    requires (c.TypographicQuote? || c.PassthroughAt?) && c.open <= c.contentStart <= c.contentEnd <= c.end <= |v|
    requires Valid(v[c.contentStart..c.contentEnd])
  {
    if c.PassthroughAt? then PassthroughNode(v, base, c)
    else
      Styled(if c.quote == '"' then CurvedDoubleQuote else CurvedSingleQuote, Range(base + c.open, base + c.end),
             Range(base + c.contentStart, base + c.contentEnd),
             ParsedSegment(t, v[c.contentStart..c.contentEnd], base + c.contentStart, cfg, depth + 1).inlines)
  }

  lemma AnchorGrows(v: Segment, base: nat, st: Scan, slash: nat)
    requires Ready(v, base, st) && st.cursor <= slash && slash + 1 < |v| && v[slash] == '\\' && v[slash + 1] == '['
    ensures var r := StepEscapedAnchor(v, base, st, slash);
      Adds(base, st, r, slash) && slash < r.cursor && r.suppressed == st.suppressed
  {
    hide Tiles, SafeStart, Emit, Ready, WithText, Valid, Spans;
    ReadyBounds(v, base, st);
    AsciiIsWhole(v, slash);
    AsciiEnd(v, slash + 1);
    EmitIs(v, base, st, slash, slash + 2, EscapedText(v, base, slash + 1, slash + 2, 1));
  }

  lemma StepGrows(t: WordTable, v: Segment, base: nat, cfg: Config, depth: nat, d: Delimiters, u: seq<nat>, st: Scan,
      c: Candidate)
    requires Indexes(d, v) && IndexesLabels(u, v)
    requires Ready(v, base, st) && st.cursor <= c.open && CandidateOk(t, v, c)
    ensures var r := Step(t, v, base, cfg, depth, d, u, st, c);
      Adds(base, st, r, c.open) && c.open < r.cursor && (!c.Marker? ==> r.suppressed == st.suppressed)
  {
    hide Indexes, IndexesLabels, StepMacro, StepMarker, StepSpan, StepEscapedAnchor, MacroOpens, RecognizeMacro,
      MarkerOk, StartsWith, Find, Tiles, SafeStart, UnitOk, MacroOk, Ready, WithText, Valid;
    match c
    case EscapedAnchor(slash) => AnchorGrows(v, base, st, slash);
    case MacroAt(open) => MacroGrows(t, v, base, cfg, depth, d, u, st, open);
    case MacroBoundaryAt(open) => BoundaryGrows(v, base, d, u, st, open);
    case Marker(_, _, _, _) => MarkerGrows(t, v, base, cfg, depth, st, c);
    case MonospaceBoundaryAt(open, end) => AsciiIsWhole(v, open);
    case TypographicQuote(_, _, _, _, _) => SpanStep(t, v, base, cfg, depth, st, c);
    case PassthroughAt(_, _, _, _, _) => SpanStep(t, v, base, cfg, depth, st, c);
  }

  lemma BoundaryGrows(v: Segment, base: nat, d: Delimiters, u: seq<nat>, st: Scan, open: nat)
    requires Indexes(d, v) && IndexesLabels(u, v)
    requires Ready(v, base, st) && st.cursor <= open < |v| && Boundary(v, open)
    ensures var r := StepMacroBoundary(v, base, d, u, st, open);
      Adds(base, st, r, open) && open < r.cursor && r.suppressed == st.suppressed
  {
    hide Indexes, IndexesLabels, RecognizeMacro, SafeStart, Tiles, Ready;
    var k := RecognizeMacro(v, open, d, u);
    if k.Matched? {
      MacroEnds(v, k.token);
    }
  }

  // ---------------------------------------------------------------- over the whole run

  lemma StateStep(t: WordTable, v: Segment, base: nat, cfg: Config, depth: nat, j: nat)
    requires j < |Candidates(t, v)| && Reached(t, v, base, cfg, depth, j)
    ensures var st, c := StateAt(t, v, base, cfg, depth, j), Candidates(t, v)[j];
      && CandidateOk(t, v, c) && Indexes(DelimitersOf(v), v) && IndexesLabels(LabelsOf(v), v)
      && StateAt(t, v, base, cfg, depth, j + 1) == Step(t, v, base, cfg, depth, DelimitersOf(v), LabelsOf(v), st, c)
  {
    hide Indexes, IndexesLabels, CandidateOk, Ready, Candidates, DelimitersOf, LabelsOf, Step;
    LabelsIndexed(v);
    assert Candidates(t, v)[j] in Candidates(t, v);
  }

  lemma {:induction false} RunGrows(t: WordTable, v: Segment, base: nat, cfg: Config, depth: nat, i: nat, j: nat)
    requires i <= j <= |Candidates(t, v)|
    ensures Grows(base, StateAt(t, v, base, cfg, depth, i), StateAt(t, v, base, cfg, depth, j))
    decreases j
  {
    hide Indexes, IndexesLabels, CandidateOk, Ready, Candidates, DelimitersOf, LabelsOf, Step, Grows, StateAt;
    var a, b := StateAt(t, v, base, cfg, depth, i), StateAt(t, v, base, cfg, depth, j);
    if i == j {
      GrowsNot(base, a);
    } else {
      var m := StateAt(t, v, base, cfg, depth, j - 1);
      RunGrows(t, v, base, cfg, depth, i, j - 1);
      OneGrows(t, v, base, cfg, depth, j - 1);
      GrowsOn(base, a, m, b);
    }
  }

  lemma GrowsNot(base: nat, st: Scan)
    ensures Grows(base, st, st)
  {
  }

  lemma OneGrows(t: WordTable, v: Segment, base: nat, cfg: Config, depth: nat, j: nat)
    requires j < |Candidates(t, v)|
    ensures Grows(base, StateAt(t, v, base, cfg, depth, j), StateAt(t, v, base, cfg, depth, j + 1))
  {
    hide Indexes, IndexesLabels, CandidateOk, Ready, Candidates, DelimitersOf, LabelsOf, Step, Grows;
    var st, c := StateAt(t, v, base, cfg, depth, j), Candidates(t, v)[j];
    if Reached(t, v, base, cfg, depth, j) {
      StateStep(t, v, base, cfg, depth, j);
      StepGrows(t, v, base, cfg, depth, DelimitersOf(v), LabelsOf(v), st, c);
    } else {
      GrowsNot(base, st);
    }
  }

  /** The nodes of any moment are the first nodes of the output, and those that follow are plain text or
      start no earlier than the cursor stood. */
  lemma OutputGrows(t: WordTable, v: Segment, base: nat, cfg: Config, depth: nat, j: nat)
    requires j <= |Candidates(t, v)|
    ensures var st, s := StateAt(t, v, base, cfg, depth, j), ParsedSegment(t, v, base, cfg, depth).inlines;
      && st.inlines <= s
      && forall i :: |st.inlines| <= i < |s| ==> s[i].PlainText? || base + st.cursor <= s[i].range.start
  {
    hide Candidates, StateAt, Ready;
    var end := StateAt(t, v, base, cfg, depth, |Candidates(t, v)|);
    RunGrows(t, v, base, cfg, depth, j, |Candidates(t, v)|);
    ParsedIs(t, v, base, cfg, depth);
    FinishedIs(v, base, end);
  }

  lemma FinishedIs(v: Segment, base: nat, st: Scan)
    requires Ready(v, base, st)
    ensures st.plainStart <= |v| && Finished(v, base, st).inlines == WithText(v, base, st, |v|)
  {
  }

  /** The candidate that a node other than plain text comes from. */
  lemma {:induction false} NodeComesFrom(t: WordTable, v: Segment, base: nat, cfg: Config, depth: nat, m: nat, i: nat)
      returns (j: nat)
    requires m <= |Candidates(t, v)| && i < |StateAt(t, v, base, cfg, depth, m).inlines|
    requires !StateAt(t, v, base, cfg, depth, m).inlines[i].PlainText?
    ensures j < m && Reached(t, v, base, cfg, depth, j)
    ensures |StateAt(t, v, base, cfg, depth, j).inlines| <= i < |StateAt(t, v, base, cfg, depth, j + 1).inlines|
    ensures StateAt(t, v, base, cfg, depth, m).inlines[i].range.start == base + Candidates(t, v)[j].open
    decreases m
  {
    hide Indexes, IndexesLabels, CandidateOk, Ready, Candidates, DelimitersOf, LabelsOf, Step, Grows, StateAt;
    var before := if m == 0 then START else StateAt(t, v, base, cfg, depth, m - 1);
    if m == 0 {
      NothingFirst(t, v, base, cfg, depth);
      assert false;
    } else if i < |before.inlines| {
      OneGrows(t, v, base, cfg, depth, m - 1);
      SameNode(base, before, StateAt(t, v, base, cfg, depth, m), i);
      j := NodeComesFrom(t, v, base, cfg, depth, m - 1, i);
    } else {
      j := m - 1;
      if Reached(t, v, base, cfg, depth, j) {
        StateStep(t, v, base, cfg, depth, j);
        StepGrows(t, v, base, cfg, depth, DelimitersOf(v), LabelsOf(v), before, Candidates(t, v)[j]);
      } else {
        StateStays(t, v, base, cfg, depth, j);
        assert false;
      }
    }
  }

  lemma NothingFirst(t: WordTable, v: Segment, base: nat, cfg: Config, depth: nat)
    ensures StateAt(t, v, base, cfg, depth, 0) == START
  {
    hide Candidates, Ready;
  }

  lemma SameNode(base: nat, a: Scan, b: Scan, i: nat)
    requires Grows(base, a, b) && i < |a.inlines|
    ensures i < |b.inlines| && a.inlines[i] == b.inlines[i]
  {
  }

  lemma StateStays(t: WordTable, v: Segment, base: nat, cfg: Config, depth: nat, j: nat)
    requires j < |Candidates(t, v)| && !Reached(t, v, base, cfg, depth, j)
    ensures StateAt(t, v, base, cfg, depth, j + 1) == StateAt(t, v, base, cfg, depth, j)
  {
    hide Indexes, IndexesLabels, CandidateOk, Ready, Candidates, DelimitersOf, LabelsOf, Step;
  }
}
