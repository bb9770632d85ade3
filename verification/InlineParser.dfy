/** Lowering of recognised tokens and the scan that turns a segment into inline nodes. */
module InlineParser {
  import opened Text
  import opened InlineModel
  import opened InlineGrammar
  import opened InlineRecognition
  import opened InlineCandidates
  import InlineIndex

  /** `[start, end)` of a segment whose first unit is at source offset `base`. */
  function Subrange(base: nat, start: nat, end: nat): TextRange
    requires start <= end
  {
    Range(base + start, base + end)
  }

  /** A parsed token: one node over the whole token, and the problems found inside it. */
  datatype Built = Built(node: Inline, problems: seq<Problem>)

  ghost predicate Spans(b: Built, v: Text, base: nat, open: nat, end: nat) {
    open <= end && b.node.range == Subrange(base, open, end) && Faithful(b.node, v, base)
  }

  lemma SpansWhole(b: Built, v: Text, base: nat, open: nat, end: nat)
    requires Spans(b, v, base, open, end)
    ensures open < end <= |v| && Boundary(v, open) && Boundary(v, end)
  {
    hide Tiles, Boundary;
  }

  // ---------------------------------------------------------------- lowering

  function LowerVerbatim(cfg: Config, v: Segment, base: nat, k: MacroToken): (r: Built)
    requires MacroOk(v, k) && (k.FormulaToken? || k.PassToken?)
    ensures Spans(r, v, base, k.open, k.end)
  {
    var range, content := Subrange(base, k.open, k.end), Subrange(base, k.contentStart, k.contentEnd);
    var value := v[k.contentStart..k.contentEnd];
    if k.PassToken? then Built(Passthrough(PassMacro, range, content, value), [])
    else
      Built(Formula(range, content, value, k.language, k.closed),
            (if k.closed then [] else [Problem(UnclosedStem, range)])
            + (if value == [] then [Problem(EmptyStem, content)] else [])
            + (if |value| > cfg.maxFormulaBytes then [Problem(StemSizeLimitExceeded, content)] else []))
  }

  function MacroNode(v: Segment, base: nat, kind: MacroKind, form: MacroForm, open: nat, s: nat, e: nat, from: nat,
      close: nat, end: nat): (r: Built)
    requires open <= s <= e <= end <= |v| && open < end && s <= from <= close <= end
    requires Boundary(v, open) && Boundary(v, s) && Boundary(v, e) && Boundary(v, end)
    ensures Spans(r, v, base, open, end)
  {
    MacroSpans(v, base, kind, form, open, s, e, from, close, end);
    Built(Macro(kind, form, Subrange(base, open, end), Subrange(base, s, e), v[s..e], Subrange(base, from, close)), [])
  }

  lemma MacroSpans(v: Segment, base: nat, kind: MacroKind, form: MacroForm, open: nat, s: nat, e: nat, from: nat,
      close: nat, end: nat)
    requires open <= s <= e <= end <= |v| && open < end && s <= from <= close <= end
    requires Boundary(v, open) && Boundary(v, s) && Boundary(v, e) && Boundary(v, end)
    ensures Spans(Built(Macro(kind, form, Subrange(base, open, end), Subrange(base, s, e), v[s..e],
      Subrange(base, from, close)), []), v, base, open, end)
  {
    hide Valid, UnitOk, Boundary, Tiles;
  }

  function LowerStandard(v: Segment, base: nat, k: MacroToken): (r: Built)
    requires MacroOk(v, k) && (k.Standard? || k.ShorthandAnchor? || k.EmailAddress?)
    ensures Spans(r, v, base, k.open, k.end)
  {
    hide SafeStart, Spans, MacroNode;
    match k
    case Standard(kind, form, open, s, bracket, close, end) =>
      MacroNode(v, base, kind, form, open, s, bracket, bracket + 1, close, end)
    case ShorthandAnchor(kind, open, s, e, caption, end) =>
      var (from, close) := if caption.Some? then (caption.value.start, caption.value.end) else (e, e);
      MacroNode(v, base, kind, InlineForm, open, s, e, from, close, end)
    case EmailAddress(open, end) => MacroNode(v, base, Email, InlineForm, open, open, end, end, end, end)
  }

  /** A segment nested in `v`: its nodes tile the piece it was cut from. */
  function Nested(t: WordTable, v: Segment, base: nat, cfg: Config, depth: nat, start: nat, end: nat): (r: Output)
    requires start <= end <= |v| && end - start < |v| && Boundary(v, start) && Boundary(v, end)
    ensures Tiles(r.inlines, v[start..end], base + start, 0, end - start)
    decreases |v|, 0
  {
    SliceIsValid(v, start, end);
    ParsedSegment(t, v[start..end], base + start, cfg, depth)
  }

  /** A link or reference over `[open, end)` whose label is the segment `[from, close)`. */
  function Labelled(v: Segment, base: nat, link: bool, open: nat, s: nat, e: nat, from: nat, close: nat, end: nat,
      inner: Output): (r: Built)
    requires open < end <= |v| && open <= s <= e <= from <= close <= end
    requires Boundary(v, open) && Boundary(v, s) && Boundary(v, e) && Boundary(v, from) && Boundary(v, close)
      && Boundary(v, end)
    requires Tiles(inner.inlines, v[from..close], base + from, 0, close - from)
    ensures Spans(r, v, base, open, end)
  {
    hide Tiles;
    var range, content, caption := Subrange(base, open, end), Subrange(base, s, e), Some(Subrange(base, from, close));
    Built(if link then Link(range, content, caption, inner.inlines)
      else Reference(range, content, caption, inner.inlines), inner.problems)
  }

  /** A reference or link without a label. */
  function Unlabelled(v: Segment, base: nat, link: bool, open: nat, s: nat, e: nat, end: nat): (r: Built)
    requires open < end <= |v| && open <= s <= e <= end
    requires Boundary(v, open) && Boundary(v, s) && Boundary(v, e) && Boundary(v, end)
    ensures Spans(r, v, base, open, end)
  {
    var range, content := Subrange(base, open, end), Subrange(base, s, e);
    Built(if link then Link(range, content, None, []) else Reference(range, content, None, []), [])
  }

  /** References and links, whose label is itself a segment. */
  function LowerLabelled(t: WordTable, v: Segment, base: nat, cfg: Config, depth: nat, k: MacroToken): (r: Built)
    requires MacroOk(v, k) && (k.ShortReference? || k.Xref? || k.ExplicitLink? || k.Url?)
    ensures Spans(r, v, base, k.open, k.end)
    decreases |v|, 1
  {
    hide Tiles, SafeStart, NextUnit, Nested, Labelled, Unlabelled, Spans, Valid;
    match k
    case ShortReference(open, s, close, end) =>
      var comma := NextUnit(v, s, ',');
      if comma.Some? && comma.value < close then
        AsciiIsWhole(v, comma.value);
        var inner := Nested(t, v, base, cfg, depth + 1, comma.value + 1, close);
        Labelled(v, base, false, open, s, comma.value, comma.value + 1, close, end, inner)
      else Unlabelled(v, base, false, open, s, close, end)
    case Xref(open, s, bracket, close, end) =>
      Labelled(v, base, false, open, s, bracket, bracket + 1, close, end,
        Nested(t, v, base, cfg, depth + 1, bracket + 1, close))
    case ExplicitLink(open, s, bracket, close, end) =>
      Labelled(v, base, true, open, s, bracket, bracket + 1, close, end,
        Nested(t, v, base, cfg, depth + 1, bracket + 1, close))
    case Url(open, e, caption, end) =>
      if caption.Some? then
        var (from, close) := (caption.value.start, caption.value.end);
        Labelled(v, base, true, open, open, e, from, close, end, Nested(t, v, base, cfg, depth + 1, from, close))
      else Unlabelled(v, base, true, open, open, e, end)
  }

  /** A styled span over `[open, end)` whose content is the segment `[start, close)`. */
  function StyledSpan(v: Segment, base: nat, style: InlineStyle, open: nat, start: nat, close: nat, end: nat,
      inner: Output): (r: Built)
    requires open < end <= |v| && open <= start <= close <= end
    requires Boundary(v, open) && Boundary(v, start) && Boundary(v, close) && Boundary(v, end)
    requires Tiles(inner.inlines, v[start..close], base + start, 0, close - start)
    ensures Spans(r, v, base, open, end)
  {
    hide Tiles;
    Built(Styled(style, Subrange(base, open, end), Subrange(base, start, close), inner.inlines), inner.problems)
  }

  function LowerMacro(t: WordTable, v: Segment, base: nat, cfg: Config, depth: nat, k: MacroToken): (r: Built)
    requires MacroOk(v, k)
    ensures Spans(r, v, base, k.open, k.end)
    decreases |v|, 2
  {
    if k.FormulaToken? || k.PassToken? then LowerVerbatim(cfg, v, base, k)
    else if k.Standard? || k.ShorthandAnchor? || k.EmailAddress? then LowerStandard(v, base, k)
    else LowerLabelled(t, v, base, cfg, depth, k)
  }

  function StyleOf(marker: char): InlineStyle {
    if marker == '*' then Strong else if marker == '_' then Emphasis else if marker == '#' then Highlight
    else if marker == '~' then Subscript else Superscript
  }

  /** Monospace text; plus signs just inside the backticks are passthrough markers. */
  function MonospaceNode(v: Segment, base: nat, open: nat, start: nat, close: nat, end: nat): (r: Built)
    requires open < start < close < end <= |v|
    requires Boundary(v, open) && Boundary(v, start) && Boundary(v, close) && Boundary(v, end)
    ensures Spans(r, v, base, open, end)
  {
    var range := Subrange(base, open, end);
    if close - start >= 3 && v[start] == '+' && v[close - 1] == '+' then
      AsciiIsWhole(v, start);
      AsciiIsWhole(v, close - 1);
      Built(Literal(range, Subrange(base, start + 1, close - 1), v[start + 1..close - 1]), [])
    else Built(Literal(range, Subrange(base, start, close), v[start..close]), [])
  }

  /** An attribute reference, or a span too deep to be parsed. */
  function LiteralSpan(v: Segment, base: nat, reference: bool, open: nat, start: nat, close: nat, end: nat): (r: Built)
    requires open <= start <= close <= end <= |v| && open < end
    requires Boundary(v, open) && Boundary(v, start) && Boundary(v, close) && Boundary(v, end)
    ensures Spans(r, v, base, open, end)
  {
    var range := Subrange(base, open, end);
    if reference then Built(AttributeReference(range, Subrange(base, start, close), v[start..close]), [])
    else
      TextIsFaithful(v, base, open, 0, end);
      Built(PlainText(range, v[open..end]), [Problem(NestingLimitExceeded, range)])
  }

  function LowerMarker(t: WordTable, v: Segment, base: nat, cfg: Config, depth: nat, k: MarkerToken): (r: Built)
    requires MarkerTokenOk(v, k)
    ensures Spans(r, v, base, k.open, k.end)
    decreases |v|, 2
  {
    hide Tiles, SafeStart, Nested, MonospaceNode, StyledSpan, LiteralSpan, Faithful;
    var start := k.open + k.form.Width();
    if k.marker == '`' then MonospaceNode(v, base, k.open, start, k.close, k.end)
    else if k.marker == '{' || depth >= cfg.maxDepth then
      LiteralSpan(v, base, k.marker == '{', k.open, start, k.close, k.end)
    else StyledSpan(v, base, StyleOf(k.marker), k.open, start, k.close, k.end,
      Nested(t, v, base, cfg, depth + 1, start, k.close))
  }

  // ---------------------------------------------------------------- the scan

  /** State of the scan: nodes and problems so far, the next offset to consider, the
      start of pending plain text, and closers whose opener was escaped. */
  datatype Scan = Scan(inlines: seq<Inline>, problems: seq<Problem>, cursor: nat, plainStart: nat, suppressed: seq<nat>)

  /** The nodes tile everything before the pending text, and no escape straddles its start. */
  ghost predicate Ready(v: Segment, base: nat, st: Scan) {
    && st.plainStart <= st.cursor <= |v|
    && Boundary(v, st.plainStart) && SafeStart(v, st.plainStart)
    && Tiles(st.inlines, v, base, 0, st.plainStart)
  }

  function PushText(v: Segment, base: nat, st: Scan, end: nat): (r: seq<Inline>)
    requires Ready(v, base, st) && st.plainStart <= end <= |v| && Boundary(v, end)
    ensures Tiles(r, v, base, 0, end)
  {
    hide Tiles, SafeStart, Faithful, Valid, UnitOk;
    if st.plainStart == end then st.inlines
    else
      PushedTiles(v, base, st, end);
      st.inlines + [PlainText(Subrange(base, st.plainStart, end), v[st.plainStart..end])]
  }

  lemma PushedTiles(v: Segment, base: nat, st: Scan, end: nat)
    requires Ready(v, base, st) && st.plainStart < end <= |v| && Boundary(v, end)
    ensures Tiles(st.inlines + [PlainText(Subrange(base, st.plainStart, end), v[st.plainStart..end])], v, base, 0, end)
  {
    hide Tiles, SafeStart, Faithful, Valid, UnitOk;
    var x := PlainText(Subrange(base, st.plainStart, end), v[st.plainStart..end]);
    TextIsFaithful(v, base, st.plainStart, 0, end);
    TilesAppend(st.inlines, x, v, base, 0, st.plainStart, end);
  }

  /** Emits the pending text up to `open`, then the node over `[open, end)`. */
  function Emit(v: Segment, base: nat, st: Scan, open: nat, end: nat, b: Built): (r: Scan)
    requires Ready(v, base, st) && st.plainStart <= open <= |v| && end <= |v| && Boundary(v, open)
    requires Spans(b, v, base, open, end) && SafeStart(v, end)
    ensures Ready(v, base, r)
  {
    hide Tiles, SafeStart, Faithful, PushText, Valid, UnitOk;
    var text := PushText(v, base, st, open);
    SpansWhole(b, v, base, open, end);
    TilesAppend(text, b.node, v, base, 0, open, end);
    Scan(text + [b.node], st.problems + b.problems, end, end, st.suppressed)
  }

  /** Text shown for an escape: the source of `[open, end)` under a range that also covers
      the `width` backslashes before it. */
  function EscapedText(v: Segment, base: nat, open: nat, end: nat, width: nat): (r: Built)
    requires width <= 2 && width <= open < end <= |v| && Boundary(v, end) && Boundary(v, open)
      && (width == 2 ==> end == open + 2)
    requires forall j :: open - width <= j < open ==> v[j] == '\\'
    ensures Spans(r, v, base, open - width, end)
  {
    EscapedSpans(v, base, open, end, width);
    Built(PlainText(Subrange(base, open - width, end), v[open..end]), [])
  }

  lemma EscapedSpans(v: Segment, base: nat, open: nat, end: nat, width: nat)
    requires width <= 2 && width <= open < end <= |v| && Boundary(v, end) && Boundary(v, open)
      && (width == 2 ==> end == open + 2)
    requires forall j :: open - width <= j < open ==> v[j] == '\\'
    ensures Spans(Built(PlainText(Subrange(base, open - width, end), v[open..end]), []), v, base, open - width, end)
  {
    hide Valid, UnitOk, Faithful;
    if width > 0 {
      assert v[open - width] == '\\';
    }
    TextIsFaithful(v, base, open - width, width, end);
  }

  /** An escape that opens at or after the cursor lies wholly after the pending text's start. */
  lemma EscapeFits(v: Segment, base: nat, st: Scan, open: nat, width: nat)
    requires Ready(v, base, st) && st.cursor <= open < |v| && 1 <= width <= 2 && width <= open
    requires forall j :: open - width <= j < open ==> v[j] == '\\'
    requires MacroOpens(v, open) || v[open] in "`*_#^~{"
    ensures st.plainStart + width <= open && Boundary(v, open - width)
  {
    hide MacroOpens, Tiles, SpaceAt, UnitOk;
    AsciiIsWhole(v, open - width);
    var p := st.plainStart;
    if open < p + width {
      assert v[open - 1] == '\\';
      if UrlStop(v, p) {
        NothingOpensAtUrlStop(v, p);
      }
      assert false;
    }
  }

  lemma EscapedBy(v: Segment, i: nat)
    requires i <= |v| && IsEscaped(v, i)
    ensures 0 < i && v[i - 1] == '\\'
  {
  }

  lemma MacroEnds(v: Segment, k: MacroToken)
    requires MacroOk(v, k)
    ensures k.open < k.end <= |v| && Boundary(v, k.open) && Boundary(v, k.end) && SafeStart(v, k.end)
  {
  }

  /** An escaped macro is text, without the backslash in front of it. */
  function StepEscaped(v: Segment, base: nat, st: Scan, open: nat, end: nat): (r: Scan)
    requires Ready(v, base, st) && st.cursor <= open < end <= |v| && Boundary(v, open) && Boundary(v, end)
    requires SafeStart(v, end) && MacroOpens(v, open) && IsEscaped(v, open)
    ensures Ready(v, base, r)
  {
    hide MacroOpens, Spans, Tiles, SafeStart, Emit, EscapedText, Valid, IsEscaped;
    EscapedBy(v, open);
    EscapeFits(v, base, st, open, 1);
    Emit(v, base, st, open - 1, end, EscapedText(v, base, open, end, 1))
  }

  function StepMatched(t: WordTable, v: Segment, base: nat, cfg: Config, depth: nat, st: Scan, k: MacroToken): (r: Scan)
    requires Ready(v, base, st) && st.cursor <= k.open && MacroOk(v, k) && MacroOpens(v, k.open)
    ensures Ready(v, base, r)
    decreases |v|, 3
  {
    hide MacroOpens, MacroOk, LowerMacro, Spans, Tiles, SafeStart, Emit, StepEscaped, Valid, IsEscaped, Faithful,
      UnitOk, BackslashRun;
    MacroEnds(v, k);
    if IsEscaped(v, k.open) then StepEscaped(v, base, st, k.open, k.end)
    else Emit(v, base, st, k.open, k.end, LowerMacro(t, v, base, cfg, depth, k))
  }

  /** An incomplete macro is a problem, unless it is escaped: then the rest is literal. */
  function StepRecovered(v: Segment, base: nat, st: Scan, open: nat, next: nat, kind: ProblemKind): (r: Scan)
    requires Ready(v, base, st) && st.cursor <= open < next <= |v| && Boundary(v, open) && MacroOpens(v, open)
    ensures Ready(v, base, r)
  {
    hide MacroOpens, Tiles, SafeStart, StepEscaped, Valid, IsEscaped;
    if IsEscaped(v, open) then
      EndIsSafe(v);
      StepEscaped(v, base, st, open, |v|)
    else st.(problems := st.problems + [Problem(kind, Subrange(base, open, |v|))], cursor := next)
  }

  function StepMacro(t: WordTable, v: Segment, base: nat, cfg: Config, depth: nat, d: Delimiters, u: seq<nat>, st: Scan,
      open: nat): (r: Scan)
    requires Indexes(d, v) && IndexesLabels(u, v)
    requires Ready(v, base, st) && st.cursor <= open < |v| && Boundary(v, open) && MacroOpens(v, open)
    ensures Ready(v, base, r)
    decreases |v|, 4
  {
    hide Indexes, IndexesLabels, MacroOpens, RecognizeMacro, MacroOk, Tiles, SafeStart, StepMatched, StepRecovered;
    match RecognizeMacro(v, open, d, u)
    case Matched(k) => StepMatched(t, v, base, cfg, depth, st, k)
    case Recovered(next, kind) => StepRecovered(v, base, st, open, next, kind)
    case Rejected(next) => st.(cursor := next)
  }

  lemma LabelsIndexed(v: Segment)
    ensures IndexesLabels(LabelsOf(v), v)
  {
  }

  lemma EndIsSafe(v: Segment)
    ensures SafeStart(v, |v|)
  {
    assert UrlStopAt(v, |v|, |v|);
  }

  function StepMacroBoundary(v: Segment, base: nat, d: Delimiters, u: seq<nat>, st: Scan, open: nat): (r: Scan)
    requires Indexes(d, v) && IndexesLabels(u, v)
    requires Ready(v, base, st) && st.cursor <= open < |v| && Boundary(v, open)
    ensures Ready(v, base, r)
  {
    var k := RecognizeMacro(v, open, d, u);
    if k.Matched? && MacroBoundarySubject(v, k.token).Some? then
      var (nameEnd, name) := MacroBoundarySubject(v, k.token).value;
      st.(problems := st.problems + [Problem(MacroBoundary(name), Subrange(base, open, nameEnd))],
        cursor := k.token.end)
    else st.(cursor := Next(v, open))
  }

  function IndexOf(s: seq<nat>, x: nat): (r: Option<nat>)
    ensures r.Some? ==> r.value < |s| && s[r.value] == x
  {
    if s == [] then None
    else if s[0] == x then Some(0)
    else match IndexOf(s[1..], x) case None => None case Some(i) => Some(i + 1)
  }

  function SwapRemove(s: seq<nat>, i: nat): seq<nat>
    requires i < |s|
  {
    s[i := s[|s| - 1]][..|s| - 1]
  }

  /** A marker as text, with the backslashes in front of it in its range. */
  function StepLiteral(v: Segment, base: nat, st: Scan, open: nat, end: nat, escape: nat): (r: Scan)
    requires Ready(v, base, st) && escape <= 2 && st.plainStart + escape <= open < end <= |v|
    requires Boundary(v, open - escape) && Boundary(v, open) && Boundary(v, end) && SafeStart(v, end)
    requires (escape == 2 ==> end == open + 2) && forall j :: open - escape <= j < open ==> v[j] == '\\'
    ensures Ready(v, base, r)
  {
    hide Tiles, SafeStart, Emit, EscapedText, Spans, UnitOk, Valid, Ready;
    Emit(v, base, st, open - escape, end, EscapedText(v, base, open, end, escape))
  }

  lemma LiteralFits(v: Segment, base: nat, st: Scan, c: Candidate, escape: nat)
    requires Ready(v, base, st) && c.Marker? && st.cursor <= c.open < |v| && v[c.open] in "`*_#^~{"
    requires escape == MarkerEscapeWidth(v, c.open, c.form) && Boundary(v, c.open)
    ensures st.plainStart + escape <= c.open && Boundary(v, c.open - escape)
    ensures escape == 2 ==> c.form.Unconstrained?
  {
    hide Tiles, SafeStart, UnitOk;
    if escape > 0 {
      EscapeFits(v, base, st, c.open, escape);
    }
  }

  /** A marker that is escaped, or that closes a span whose opener was, stays literal. */
  function StepMarker(t: WordTable, v: Segment, base: nat, cfg: Config, depth: nat, st: Scan, c: Candidate): (r: Scan)
    requires Ready(v, base, st) && c.Marker? && st.cursor <= c.open && CandidateOk(t, v, c)
    ensures Ready(v, base, r)
    decreases |v|, 3
  {
    hide Tiles, SafeStart, Emit, StepLiteral, LowerMarker, RecognizeMarker, Spans, NextCloser, UnitOk;
    var escape := MarkerEscapeWidth(v, c.open, c.form);
    var suppressed := IndexOf(st.suppressed, c.open);
    var k := RecognizeMarker(t, v, c.open, c.marker, c.form, c.close);
    MarkerStarts(v, c.open, c.form);
    if escape > 0 || suppressed.Some? then
      var end := c.open + c.form.Width();
      AsciiEnd(v, end - 1);
      var still :=
        if suppressed.Some? then SwapRemove(st.suppressed, suppressed.value)
        else if k.Matched? then st.suppressed + [k.token.close]
        else st.suppressed;
      LiteralFits(v, base, st, c, escape);
      StepLiteral(v, base, st.(suppressed := still), c.open, end, escape)
    else
      match k
      case Matched(token) => Emit(v, base, st, c.open, token.end, LowerMarker(t, v, base, cfg, depth, token))
      case Recovered(next, kind) =>
        st.(problems := st.problems + [Problem(kind, Subrange(base, c.open, next))], cursor := next)
      case Rejected(next) => st.(cursor := next)
  }

  function StepSpan(t: WordTable, v: Segment, base: nat, cfg: Config, depth: nat, st: Scan, c: Candidate): (r: Scan)
    requires Ready(v, base, st) && (c.TypographicQuote? || c.PassthroughAt?) && st.cursor <= c.open
      && CandidateOk(t, v, c)
    ensures Ready(v, base, r)
    decreases |v|, 3
  {
    hide CandidateOk, Tiles, SafeStart, Emit, Nested, StyledSpan;
    SpanBounds(t, v, c);
    var range, content := Subrange(base, c.open, c.end), Subrange(base, c.contentStart, c.contentEnd);
    if c.PassthroughAt? then
      var mode := if c.width == 1 then SinglePlus else if c.width == 2 then DoublePlus else TriplePlus;
      Emit(v, base, st, c.open, c.end, Built(Passthrough(mode, range, content, v[c.contentStart..c.contentEnd]), []))
    else
      var inner := Nested(t, v, base, cfg, depth + 1, c.contentStart, c.contentEnd);
      var style := if c.quote == '"' then CurvedDoubleQuote else CurvedSingleQuote;
      Emit(v, base, st, c.open, c.end, StyledSpan(v, base, style, c.open, c.contentStart, c.contentEnd, c.end, inner))
  }

  lemma SpanBounds(t: WordTable, v: Segment, c: Candidate)
    requires (c.TypographicQuote? || c.PassthroughAt?) && CandidateOk(t, v, c)
    ensures c.open < c.contentStart <= c.contentEnd < c.end <= |v|
    ensures Boundary(v, c.open) && Boundary(v, c.contentStart) && Boundary(v, c.contentEnd) && Boundary(v, c.end)
    ensures SafeStart(v, c.end)
  {
    hide SafeStart, Find, StartsWith, Pluses;
    if c.PassthroughAt? {
      PlusesAreAscii(c.width);
      StartsInside(v, c.open, Pluses(c.width));
      StartsInside(v, c.contentEnd, Pluses(c.width));
      AsciiSpan(v, c.open, Pluses(c.width));
      AsciiSpan(v, c.contentEnd, Pluses(c.width));
    } else {
      StartsInside(v, c.open, [c.quote, '`']);
      StartsInside(v, c.contentEnd, ['`', c.quote]);
      AsciiSpan(v, c.open, [c.quote, '`']);
      AsciiSpan(v, c.contentEnd, ['`', c.quote]);
    }
  }

  lemma PlusesAreAscii(w: nat)
    requires 1 <= w <= 3
    ensures |Pluses(w)| == w && Pluses(w)[0] == Pluses(w)[w - 1] == '+'
  {
  }

  lemma StartsInside(v: Segment, i: nat, p: string)
    requires StartsWith(v, i, p)
    ensures i + |p| <= |v|
  {
  }

  lemma AsciiSpan(v: Segment, i: nat, p: string)
    requires StartsWith(v, i, p) && p != [] && p[0] < '\U{80}' && p[|p| - 1] < '\U{80}' && p[|p| - 1] != '\\'
    ensures Boundary(v, i) && Boundary(v, i + |p|) && SafeStart(v, i + |p|)
  {
    StartsAscii(v, i, p);
  }

  function StepEscapedAnchor(v: Segment, base: nat, st: Scan, slash: nat): (r: Scan)
    requires Ready(v, base, st) && st.cursor <= slash && slash + 1 < |v| && v[slash] == '\\' && v[slash + 1] == '['
    ensures Ready(v, base, r)
  {
    hide Tiles, SafeStart, Emit, EscapedText;
    AsciiIsWhole(v, slash);
    AsciiEnd(v, slash + 1);
    Emit(v, base, st, slash, slash + 2, EscapedText(v, base, slash + 1, slash + 2, 1))
  }

  function Step(t: WordTable, v: Segment, base: nat, cfg: Config, depth: nat, d: Delimiters, u: seq<nat>, st: Scan,
      c: Candidate): (r: Scan)
    requires Indexes(d, v) && IndexesLabels(u, v)
    requires Ready(v, base, st) && st.cursor <= c.open && CandidateOk(t, v, c)
    ensures Ready(v, base, r)
    decreases |v|, 5
  {
    hide Indexes, IndexesLabels, StepMacro, StepMacroBoundary, StepMarker, StepSpan, StepEscapedAnchor, MacroOpens,
      MarkerOk, StartsWith, Find, Tiles, SafeStart, UnitOk;
    match c
    case EscapedAnchor(slash) => StepEscapedAnchor(v, base, st, slash)
    case MacroAt(open) => StepMacro(t, v, base, cfg, depth, d, u, st, open)
    case MacroBoundaryAt(open) => StepMacroBoundary(v, base, d, u, st, open)
    case Marker(_, _, _, _) => StepMarker(t, v, base, cfg, depth, st, c)
    case MonospaceBoundaryAt(open, end) =>
      AsciiIsWhole(v, open);
      st.(problems := st.problems + [Problem(MonospaceBoundary, Subrange(base, open, end))], cursor := Next(v, open))
    case TypographicQuote(_, _, _, _, _) => StepSpan(t, v, base, cfg, depth, st, c)
    case PassthroughAt(_, _, _, _, _) => StepSpan(t, v, base, cfg, depth, st, c)
  }

  /** Consumes the candidates in order, skipping those the cursor has passed. */
  function Consume(t: WordTable, v: Segment, base: nat, cfg: Config, depth: nat, d: Delimiters, u: seq<nat>,
      cs: seq<Candidate>, st: Scan): (r: Scan)
    requires Indexes(d, v) && IndexesLabels(u, v) && Ready(v, base, st) && AllOk(t, v, cs)
    ensures Ready(v, base, r)
    decreases |v|, 6, |cs|
  {
    hide Indexes, IndexesLabels, CandidateOk, Step, Ready;
    if cs == [] then st
    else
      Consume(t, v, base, cfg, depth, d, u, cs[1..],
              if cs[0].open < st.cursor then st else Step(t, v, base, cfg, depth, d, u, st, cs[0]))
  }

  const START := Scan([], [], 0, 0, [])

  function Finished(v: Segment, base: nat, st: Scan): (r: Output)
    requires Ready(v, base, st)
    ensures Tiles(r.inlines, v, base, 0, |v|)
  {
    Output(PushText(v, base, st, |v|), st.problems)
  }

  /** Parses a segment. Its nodes tile the segment exactly, at every nesting level. */
  function ParsedSegment(t: WordTable, v: Segment, base: nat, cfg: Config, depth: nat): (r: Output)
    ensures Tiles(r.inlines, v, base, 0, |v|)
    decreases |v|, 7
  {
    hide Indexes, IndexesLabels, Candidates, Consume, DelimitersOf, LabelsOf, Ready, AllOk, Finished;
    LabelsIndexed(v);
    StartIsReady(v, base);
    Finished(v, base, Consume(t, v, base, cfg, depth, DelimitersOf(v), LabelsOf(v), Candidates(t, v), START))
  }

  lemma {:induction false} NothingAfterEnd(t: WordTable, v: Segment, base: nat, cfg: Config, depth: nat, d: Delimiters,
      u: seq<nat>, cs: seq<Candidate>, st: Scan)
    requires Indexes(d, v) && IndexesLabels(u, v) && Ready(v, base, st) && AllOk(t, v, cs) && st.cursor == |v|
    ensures Consume(t, v, base, cfg, depth, d, u, cs, st) == st
    decreases |cs|
  {
    hide Indexes, IndexesLabels, Ready, Step;
    if cs != [] {
      assert CandidateOk(t, v, cs[0]);
      OpensInside(t, v, cs[0]);
      NothingAfterEnd(t, v, base, cfg, depth, d, u, cs[1..], st);
    }
  }

  lemma OpensInside(t: WordTable, v: Segment, c: Candidate)
    requires CandidateOk(t, v, c)
    ensures c.open < |v|
  {
    if c.TypographicQuote? || c.PassthroughAt? {
      SpanBounds(t, v, c);
    }
  }

  /** The one-pass parser: builds the index, then consumes its candidates in one forward
      loop, leaving early once an incomplete escaped macro has taken the rest. */
  method ParseSegment(t: WordTable, v: Segment, base: nat, cfg: Config, depth: nat) returns (r: Output)
    ensures r == ParsedSegment(t, v, base, cfg, depth)
    ensures Tiles(r.inlines, v, base, 0, |v|)
  {
    hide Indexes, IndexesLabels, CandidateOk, Step, Ready, Candidates, DelimitersOf, LabelsOf;
    var index := InlineIndex.BuildIndex(t, v);
    LabelsIndexed(v);
    StartIsReady(v, base);
    var candidates := index.candidates;
    var next := 0;
    var st := START;
    ghost var all := Consume(t, v, base, cfg, depth, index.delimiters, index.labels, candidates, START);
    assert candidates[0..] == candidates;
    while next < |candidates|
      invariant next <= |candidates| && Ready(v, base, st)
      invariant AllOk(t, v, candidates[next..])
      invariant all == Consume(t, v, base, cfg, depth, index.delimiters, index.labels, candidates[next..], st)
    {
      var candidate := candidates[next];
      assert candidates[next..][1..] == candidates[next + 1..];
      next := next + 1;
      if candidate.open < st.cursor {
        continue;
      }
      st := Step(t, v, base, cfg, depth, index.delimiters, index.labels, st, candidate);
      if candidate.MacroAt? && st.cursor == |v| {
        NothingAfterEnd(t, v, base, cfg, depth, index.delimiters, index.labels, candidates[next..], st);
        break;
      }
    }
    r := Finished(v, base, st);
  }

  lemma StartIsReady(v: Segment, base: nat)
    ensures Ready(v, base, START)
  {
  }

  // ---------------------------------------------------------------- what tiling means

  /** The source the ranges of the nodes cover, in order. */
  ghost function Covered(s: seq<Inline>, v: Text, base: nat): Text
    requires forall x :: x in s ==> base <= x.range.start && x.range.end <= base + |v|
  {
    if s == [] then []
    else Covered(s[..|s| - 1], v, base) + Slice(v, base, s[|s| - 1].range)
  }

  /** Nodes that tile a segment lose none of its source and repeat none of it. */
  lemma {:induction false} TilesCover(s: seq<Inline>, v: Text, base: nat, from: nat, to: nat)
    requires Tiles(s, v, base, from, to) && from <= to <= |v|
    ensures forall x :: x in s ==> base <= x.range.start && x.range.end <= base + |v|
    ensures Covered(s, v, base) == v[from..to]
  {
    if s != [] {
      var x := s[|s| - 1];
      TilesCover(s[..|s| - 1], v, base, from, x.range.start - base);
      assert s == s[..|s| - 1] + [x];
    }
  }
}
