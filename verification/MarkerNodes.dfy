/** Which marker pairs become nodes, and which nodes. */
module MarkerNodes {
  import opened Text
  import opened InlineModel
  import opened InlineGrammar
  import opened InlineRecognition
  import opened InlineCandidates
  import opened InlineParser
  import opened InlineRun

  /** A marker pairs with its nearest closer when something stands between them: the name of an attribute
      or counter between braces, and no white space between carets or tildes. */
  predicate Pairs(v: Segment, c: Candidate)
    requires c.Marker?
  {
    c.close.Some? &&
    var start, k := c.open + c.form.Width(), c.close.value;
    && start < k <= |v|
    && (c.marker == '{' ==> AttributeName(v[start..k]) || CounterReference(v[start..k]))
    && (c.marker == '^' || c.marker == '~' ==> forall i :: start <= i < k ==> !SpaceAt(v, i))
  }

  predicate Marks(marker: char, style: InlineStyle) {
    match style
    case Strong => marker == '*'
    case Emphasis => marker == '_'
    case Highlight => marker == '#'
    case Subscript => marker == '~'
    case Superscript => marker == '^'
    case _ => false
  }

  /** Monospace text; plus signs just inside the backticks do not belong to it. */
  ghost predicate Monospaced(v: Segment, base: nat, start: nat, k: nat, n: Inline)
    requires start <= k <= |v|
  {
    if start + 3 <= k && v[start] == v[k - 1] == '+' then
      n == Literal(n.range, Range(base + start + 1, base + k - 1), v[start + 1..k - 1])
    else n == Literal(n.range, Range(base + start, base + k), v[start..k])
  }

  /** The node over both markers that a pair becomes: what stands between them, parsed one level deeper
      where it is styled, or the text as it is where that level is too deep. */
  ghost predicate MarkedNode(t: WordTable, v: Segment, base: nat, cfg: Config, depth: nat, c: Candidate, n: Inline)
    requires c.Marker? && Pairs(v, c)
  {
    var w := c.form.Width();
    var start, k := c.open + w, c.close.value;
    && k + w <= |v| && n.range == Range(base + c.open, base + k + w)
    && if c.marker == '`' then Monospaced(v, base, start, k, n)
       else if c.marker == '{' then n == AttributeReference(n.range, Range(base + start, base + k), v[start..k])
       else if cfg.maxDepth <= depth then n == PlainText(n.range, v[c.open..k + w])
       else
         && Valid(v[start..k])
         && n.Styled? && Marks(c.marker, n.style) && n.content == Range(base + start, base + k)
         && n.children == ParsedSegment(t, v[start..k], base + start, cfg, depth + 1).inlines
  }

  lemma MatchedIff(t: WordTable, v: Segment, c: Candidate)
    requires c.Marker? && CandidateOk(t, v, c)
    ensures var k := RecognizeMarker(t, v, c.open, c.marker, c.form, c.close);
      && (k.Matched? <==> Pairs(v, c))
      && (k.Matched? ==>
            k.token == MarkerToken(c.open, c.close.value, c.close.value + c.form.Width(), c.marker, c.form))
      && (!k.Matched? ==>
            k.next == if c.close == Some(c.open + c.form.Width()) then c.open + 2 * c.form.Width()
                      else c.open + c.form.Width())
  {
    hide NextCloser, AttributeName, CounterReference, SpaceAt, Valid;
    if c.close.Some? {
      CloserFits(t, v, c.open, c.marker, c.form, c.close.value);
    }
  }

  lemma LoweredIs(t: WordTable, v: Segment, base: nat, cfg: Config, depth: nat, c: Candidate, k: MarkerToken)
    requires c.Marker? && Pairs(v, c) && MarkerTokenOk(v, k)
    requires k == MarkerToken(c.open, c.close.value, c.close.value + c.form.Width(), c.marker, c.form)
    ensures MarkedNode(t, v, base, cfg, depth, c, LowerMarker(t, v, base, cfg, depth, k).node)
  {
    hide NextCloser, AttributeName, CounterReference, SpaceAt, Valid, Tiles, SafeStart, ParsedSegment, UnitOk, Boundary,
      MonospaceNode, LiteralSpan, StyledSpan, Monospaced, Spans, Pairs;
    var start := c.open + c.form.Width();
    SliceIsValid(v, start, k.close);
    if c.marker == '`' {
      MonospaceIs(v, base, c.open, start, k.close, k.end);
    } else if c.marker == '{' || cfg.maxDepth <= depth {
      LiteralSpanIs(v, base, c.marker == '{', c.open, start, k.close, k.end);
    } else {
      StyledIs(v, base, StyleOf(c.marker), c.open, start, k.close, k.end,
        Nested(t, v, base, cfg, depth + 1, start, k.close));
    }
  }

  lemma MonospaceIs(v: Segment, base: nat, open: nat, start: nat, close: nat, end: nat)
    requires open < start < close < end <= |v|
    requires Boundary(v, open) && Boundary(v, start) && Boundary(v, close) && Boundary(v, end)
    ensures var n := MonospaceNode(v, base, open, start, close, end).node;
      n.range == Range(base + open, base + end) && Monospaced(v, base, start, close, n)
  {
    hide Valid, UnitOk, Boundary, Spans;
  }

  lemma LiteralSpanIs(v: Segment, base: nat, reference: bool, open: nat, start: nat, close: nat, end: nat)
    requires open <= start <= close <= end <= |v| && open < end
    requires Boundary(v, open) && Boundary(v, start) && Boundary(v, close) && Boundary(v, end)
    ensures LiteralSpan(v, base, reference, open, start, close, end).node
      == if reference then AttributeReference(Range(base + open, base + end), Range(base + start, base + close),
        v[start..close])
         else PlainText(Range(base + open, base + end), v[open..end])
  {
    hide Valid, UnitOk, Boundary, Spans;
  }

  lemma StyledIs(v: Segment, base: nat, style: InlineStyle, open: nat, start: nat, close: nat, end: nat, inner: Output)
    requires open < end <= |v| && open <= start <= close <= end
    requires Boundary(v, open) && Boundary(v, start) && Boundary(v, close) && Boundary(v, end)
    requires Tiles(inner.inlines, v[start..close], base + start, 0, close - start)
    ensures StyledSpan(v, base, style, open, start, close, end, inner).node
      == Styled(style, Range(base + open, base + end), Range(base + start, base + close), inner.inlines)
  {
    hide Valid, UnitOk, Boundary, Spans, Tiles;
  }

  // ---------------------------------------------------------------- escapes

  /** Exactly `r` backslashes stand before the place. */
  predicate Backslashes(v: Text, open: nat, r: nat)
    requires open <= |v|
  {
    r <= open && (forall j :: open - r <= j < open ==> v[j] == '\\') && (r < open ==> v[open - r - 1] != '\\')
  }

  lemma {:induction false} RunIs(v: Text, open: nat)
    requires open <= |v|
    ensures Backslashes(v, open, BackslashRun(v, open))
    decreases open
  {
    if open > 0 && v[open - 1] == '\\' {
      RunIs(v, open - 1);
    }
  }

  /** An odd number of backslashes escapes a marker with the last of them; two or more escape a doubled
      marker with two. */
  lemma EscapeIs(v: Text, open: nat, form: MarkerForm, r: nat)
    requires open <= |v| && Backslashes(v, open, r)
    ensures MarkerEscapeWidth(v, open, form) == if form.Unconstrained? && 2 <= r then 2 else r % 2
  {
    RunIs(v, open);
    SameRun(v, open, r, BackslashRun(v, open));
    if 2 <= r {
      assert v[open - 1] == '\\' && v[open - 2] == '\\';
    }
  }

  lemma SameRun(v: Text, open: nat, a: nat, b: nat)
    requires open <= |v| && Backslashes(v, open, a) && Backslashes(v, open, b)
    ensures a == b
  {
  }

  // ---------------------------------------------------------------- the steps

  /** What the scanner has when it comes to a candidate, and what it has behind it. */
  ghost predicate OpenAt(t: WordTable, v: Segment, base: nat, cfg: Config, depth: nat, j: nat)
  {
    && j < |Candidates(t, v)| && Reached(t, v, base, cfg, depth, j)
    && var c := Candidates(t, v)[j];
       c.Marker? && c.open <= |v| && MarkerEscapeWidth(v, c.open, c.form) == 0
       && c.open !in StateAt(t, v, base, cfg, depth, j).suppressed
  }

  lemma MarkerStep(t: WordTable, v: Segment, base: nat, cfg: Config, depth: nat, j: nat)
    requires OpenAt(t, v, base, cfg, depth, j)
    ensures var st, after, c := StateAt(t, v, base, cfg, depth, j), StateAt(t, v, base, cfg, depth, j + 1),
      Candidates(t, v)[j];
      && c.close == NextCloser(t, v, c.marker, c.form, c.open + 1) && after.suppressed == st.suppressed
      && st.plainStart <= c.open
      && if Pairs(v, c) then
           && after.cursor == after.plainStart == c.close.value + c.form.Width()
           && |after.inlines| == |WithText(v, base, st, c.open)| + 1
           && WithText(v, base, st, c.open) <= after.inlines
           && MarkedNode(t, v, base, cfg, depth, c, after.inlines[|after.inlines| - 1])
         else
           && after.inlines == st.inlines && after.plainStart == st.plainStart
           && after.cursor == if c.close == Some(c.open + c.form.Width()) then c.open + 2 * c.form.Width()
                              else c.open + c.form.Width()
  {
    hide Candidates, StateAt, Ready, Pairs, MarkedNode, NextCloser, WithText, RecognizeMarker, LowerMarker, StepMarker,
      Indexes, IndexesLabels, DelimitersOf, LabelsOf, Paired, SafeStart;
    var st, c := StateAt(t, v, base, cfg, depth, j), Candidates(t, v)[j];
    StateStep(t, v, base, cfg, depth, j);
    StepOfMarker(t, v, base, cfg, depth, DelimitersOf(v), LabelsOf(v), st, c);
    OpenMarker(t, v, base, cfg, depth, st, c);
    MatchedIff(t, v, c);
    if Pairs(v, c) {
      var k := RecognizeMarker(t, v, c.open, c.marker, c.form, c.close).token;
      LoweredIs(t, v, base, cfg, depth, c, k);
      LastOne(WithText(v, base, st, c.open), LowerMarker(t, v, base, cfg, depth, k).node);
    }
  }

  lemma LastOne(s: seq<Inline>, x: Inline)
    ensures |s + [x]| == |s| + 1 && (s + [x])[|s|] == x && s <= s + [x]
  {
  }

  lemma StepOfMarker(t: WordTable, v: Segment, base: nat, cfg: Config, depth: nat, d: Delimiters, u: seq<nat>, st: Scan,
      c: Candidate)
    requires Indexes(d, v) && IndexesLabels(u, v) && c.Marker?
    requires Ready(v, base, st) && st.cursor <= c.open && CandidateOk(t, v, c)
    ensures Step(t, v, base, cfg, depth, d, u, st, c) == StepMarker(t, v, base, cfg, depth, st, c)
  {
    hide Indexes, IndexesLabels, Ready, CandidateOk, StepMarker;
  }

  // ---------------------------------------------------------------- the theorem

  /** A marker that the scanner reaches, neither escaped nor paired with an escaped one, becomes a node
      exactly when it pairs with its nearest closer. Otherwise no node but plain text starts there. */
  lemma MarkerBecomesNode(t: WordTable, v: Segment, base: nat, cfg: Config, depth: nat, j: nat)
    requires OpenAt(t, v, base, cfg, depth, j)
    ensures var c, s := Candidates(t, v)[j], ParsedSegment(t, v, base, cfg, depth).inlines;
      if Pairs(v, c) then exists i :: 0 <= i < |s| && MarkedNode(t, v, base, cfg, depth, c, s[i])
      else forall i :: 0 <= i < |s| ==> s[i].PlainText? || s[i].range.start != base + c.open
  {
    hide Candidates, StateAt, Ready, Pairs, MarkedNode, NextCloser, WithText, ParsedSegment;
    var c, s := Candidates(t, v)[j], ParsedSegment(t, v, base, cfg, depth).inlines;
    var st, after := StateAt(t, v, base, cfg, depth, j), StateAt(t, v, base, cfg, depth, j + 1);
    MarkerStep(t, v, base, cfg, depth, j);
    OutputGrows(t, v, base, cfg, depth, j + 1);
    if Pairs(v, c) {
      var i := |after.inlines| - 1;
      assert s[i] == after.inlines[i];
    } else {
      forall i | 0 <= i < |s| && !s[i].PlainText? ensures s[i].range.start != base + c.open {
        if i < |st.inlines| {
          ReadyTiles(v, base, st);
          TilesBefore(st.inlines, v, base, 0, st.plainStart, i);
        }
      }
    }
  }

  lemma ReadyTiles(v: Segment, base: nat, st: Scan)
    requires Ready(v, base, st)
    ensures Tiles(st.inlines, v, base, 0, st.plainStart)
  {
    hide Tiles;
  }

  /** A node that is tiled before an offset starts before it. */
  lemma {:induction false} TilesBefore(s: seq<Inline>, v: Text, base: nat, from: nat, to: nat, i: nat)
    requires Tiles(s, v, base, from, to) && i < |s|
    ensures s[i].range.start < base + to
    decreases |s|
  {
    hide Faithful;
    NodeIsSome(s[|s| - 1], v, base);
    if i < |s| - 1 {
      TilesBefore(s[..|s| - 1], v, base, from, s[|s| - 1].range.start - base, i);
      assert s[i] == s[..|s| - 1][i];
    }
  }

  lemma NodeIsSome(x: Inline, v: Text, base: nat)
    requires Faithful(x, v, base)
    ensures base <= x.range.start < x.range.end
  {
  }

  /** A marker that is escaped, or whose escaped opener it would close, is text; the closer of an escaped
      opener that would have paired stays literal, and no other. */
  lemma LiteralBecomesText(t: WordTable, v: Segment, base: nat, cfg: Config, depth: nat, j: nat)
    requires j < |Candidates(t, v)| && Reached(t, v, base, cfg, depth, j) && Candidates(t, v)[j].Marker?
    requires Candidates(t, v)[j].open <= |v| && !OpenAt(t, v, base, cfg, depth, j)
    ensures var st, after, c := StateAt(t, v, base, cfg, depth, j), StateAt(t, v, base, cfg, depth, j + 1),
      Candidates(t, v)[j];
      var escape, end := MarkerEscapeWidth(v, c.open, c.form), c.open + c.form.Width();
      && end <= |v|
      && LiteralNode(v, base, c.open, end, escape) in ParsedSegment(t, v, base, cfg, depth).inlines
      && after.cursor == after.plainStart == end
      && (if c.open in st.suppressed then multiset(after.suppressed) == multiset(st.suppressed) - multiset{c.open}
          else if Pairs(v, c) then after.suppressed == st.suppressed + [c.close.value]
          else after.suppressed == st.suppressed)
  {
    hide Candidates, StateAt, Ready, Pairs, NextCloser, WithText, RecognizeMarker, StepMarker, ParsedSegment,
      Indexes, IndexesLabels, DelimitersOf, LabelsOf, Paired, SafeStart, MarkerEscapeWidth, LiteralNode,
        SwapRemove, IndexOf;
    var st, c := StateAt(t, v, base, cfg, depth, j), Candidates(t, v)[j];
    StateStep(t, v, base, cfg, depth, j);
    StepOfMarker(t, v, base, cfg, depth, DelimitersOf(v), LabelsOf(v), st, c);
    LiteralMarker(t, v, base, cfg, depth, st, c);
    MatchedIff(t, v, c);
    IndexOfIs(st.suppressed, c.open);
    if c.open in st.suppressed {
      Removed(st.suppressed, IndexOf(st.suppressed, c.open).value);
    }
    OutputGrows(t, v, base, cfg, depth, j + 1);
    var escape, end := MarkerEscapeWidth(v, c.open, c.form), c.open + c.form.Width();
    LastOne(WithText(v, base, st, c.open - escape), LiteralNode(v, base, c.open, end, escape));
    PrefixHas(StateAt(t, v, base, cfg, depth, j + 1).inlines, ParsedSegment(t, v, base, cfg, depth).inlines);
  }

  lemma PrefixHas(a: seq<Inline>, b: seq<Inline>)
    requires a <= b && a != []
    ensures a[|a| - 1] in b
  {
    assert b[|a| - 1] == a[|a| - 1];
  }

  lemma Removed(s: seq<nat>, i: nat)
    requires i < |s|
    ensures multiset(SwapRemove(s, i)) == multiset(s) - multiset{s[i]}
  {
    var last := |s| - 1;
    if i == last {
      assert SwapRemove(s, i) == s[..last];
      assert s == s[..last] + [s[last]];
    } else {
      var a, b := s[..i], s[i + 1..last];
      assert SwapRemove(s, i) == a + [s[last]] + b;
      assert s == a + [s[i]] + b + [s[last]];
    }
  }

  /** A quotation or passthrough that the scanner reaches becomes its node. */
  lemma SpanBecomesNode(t: WordTable, v: Segment, base: nat, cfg: Config, depth: nat, j: nat)
    requires j < |Candidates(t, v)| && Reached(t, v, base, cfg, depth, j)
    requires Candidates(t, v)[j].TypographicQuote? || Candidates(t, v)[j].PassthroughAt?
    ensures var c, after := Candidates(t, v)[j], StateAt(t, v, base, cfg, depth, j + 1);
      && c.open < c.contentStart <= c.contentEnd < c.end <= |v| && Valid(v[c.contentStart..c.contentEnd])
      && SpanNode(t, v, base, cfg, depth, c) in ParsedSegment(t, v, base, cfg, depth).inlines
      && after.cursor == after.plainStart == c.end
  {
    hide Candidates, StateAt, Ready, WithText, ParsedSegment, StepSpan, Indexes, IndexesLabels, DelimitersOf,
      LabelsOf, SpanNode,
      Valid, CandidateOk;
    var st, c := StateAt(t, v, base, cfg, depth, j), Candidates(t, v)[j];
    StateStep(t, v, base, cfg, depth, j);
    StepOfSpan(t, v, base, cfg, depth, DelimitersOf(v), LabelsOf(v), st, c);
    SpanStep(t, v, base, cfg, depth, st, c);
    OutputGrows(t, v, base, cfg, depth, j + 1);
    LastOne(WithText(v, base, st, c.open), SpanNode(t, v, base, cfg, depth, c));
    PrefixHas(StateAt(t, v, base, cfg, depth, j + 1).inlines, ParsedSegment(t, v, base, cfg, depth).inlines);
  }

  lemma StepOfSpan(t: WordTable, v: Segment, base: nat, cfg: Config, depth: nat, d: Delimiters, u: seq<nat>, st: Scan,
      c: Candidate)
    requires Indexes(d, v) && IndexesLabels(u, v) && (c.TypographicQuote? || c.PassthroughAt?)
    requires Ready(v, base, st) && st.cursor <= c.open && CandidateOk(t, v, c)
    ensures Step(t, v, base, cfg, depth, d, u, st, c) == StepSpan(t, v, base, cfg, depth, st, c)
  {
    hide Indexes, IndexesLabels, Ready, CandidateOk, StepSpan;
  }
}
