/** Inline nodes, recognised tokens, and what it means for nodes to tile a segment. */
module InlineModel {
  import opened Text

  /** The 32-bit value that marks an empty slot of a compact offset index. */
  const MISSING := 0xFFFF_FFFF

  /** Inline input: well-formed UTF-8 inside the 32-bit offset domain. */
  type Segment = v: Text | Valid(v) && |v| < MISSING witness []

  /** Alphanumeric test for characters outside ASCII (the Unicode table). */
  type WordTable = Text -> bool

  datatype InlineStyle = Strong | Emphasis | Highlight | Subscript | Superscript | CurvedDoubleQuote | CurvedSingleQuote
  datatype PassthroughKind = SinglePlus | DoublePlus | TriplePlus | PassMacro
  datatype MathLanguage = AsciiMath | Latex
  datatype MacroForm = InlineForm | BlockForm
  datatype MacroKind = Email | Footnote | Anchor | BibliographyAnchor | Citation | IndexTerm
                     | Keyboard | Button | Menu | Image | Icon | Audio | Video

  datatype Inline =
    | PlainText(range: TextRange, value: Text)
    | Literal(range: TextRange, content: TextRange, value: Text)
    | Styled(style: InlineStyle, range: TextRange, content: TextRange, children: seq<Inline>)
    | AttributeReference(range: TextRange, content: TextRange, value: Text)
    | Link(range: TextRange, content: TextRange, captionRange: Option<TextRange>, caption: seq<Inline>)
    | Reference(range: TextRange, content: TextRange, captionRange: Option<TextRange>, caption: seq<Inline>)
    | Formula(range: TextRange, content: TextRange, value: Text, language: Option<MathLanguage>, closed: bool)
    | Macro(kind: MacroKind, form: MacroForm, range: TextRange, content: TextRange, value: Text, attributes: TextRange)
    | HardBreak(range: TextRange)
    | Passthrough(mode: PassthroughKind, range: TextRange, content: TextRange, value: Text)

  datatype ProblemKind =
    | UnclosedMonospace | UnclosedStrong | UnclosedEmphasis | UnclosedHighlight | UnclosedSubscript
    | UnclosedSuperscript | UnclosedAttributeReference | UnclosedPassthrough | UnclosedStem | EmptyStem
    | StemSizeLimitExceeded | IncompleteCrossReference | IncompleteLink | NestingLimitExceeded
    | MonospaceBoundary | MacroBoundary(name: string)

  datatype Problem = Problem(kind: ProblemKind, range: TextRange)

  datatype Output = Output(inlines: seq<Inline>, problems: seq<Problem>)

  datatype Config = Config(maxDepth: nat, maxFormulaBytes: nat)

  datatype MarkerForm = Constrained | Unconstrained {
    function Width(): nat { if Constrained? then 1 else 2 }
  }

  datatype MacroToken =
    | FormulaToken(open: nat, contentStart: nat, contentEnd: nat, end: nat, closed: bool,
      language: Option<MathLanguage>)
    | PassToken(open: nat, contentStart: nat, contentEnd: nat, end: nat)
    | ShortReference(open: nat, targetStart: nat, close: nat, end: nat)
    | Xref(open: nat, targetStart: nat, bracket: nat, close: nat, end: nat)
    | ExplicitLink(open: nat, targetStart: nat, bracket: nat, close: nat, end: nat)
    | Url(open: nat, targetEnd: nat, caption: Option<TextRange>, end: nat)
    | Standard(kind: MacroKind, form: MacroForm, open: nat, targetStart: nat, bracket: nat, close: nat, end: nat)
    | ShorthandAnchor(kind: MacroKind, open: nat, targetStart: nat, targetEnd: nat,
      caption: Option<TextRange>, end: nat)
    | EmailAddress(open: nat, end: nat)

  datatype MarkerToken = MarkerToken(open: nat, close: nat, end: nat, marker: char, form: MarkerForm)

  datatype Recognition<+T> =
    | Matched(token: T)
    | Recovered(next: nat, kind: ProblemKind)
    | Rejected(next: nat)

  datatype Candidate =
    | EscapedAnchor(open: nat)
    | MacroAt(open: nat)
    | MacroBoundaryAt(open: nat)
    | Marker(open: nat, marker: char, form: MarkerForm, close: Option<nat>)
    | MonospaceBoundaryAt(open: nat, end: nat)
    | TypographicQuote(open: nat, quote: char, contentStart: nat, contentEnd: nat, end: nat)
    | PassthroughAt(open: nat, width: nat, contentStart: nat, contentEnd: nat, end: nat)

  /** The piece of `v`, a text that starts at source offset `base`, that `r` covers. */
  function Slice(v: Text, base: nat, r: TextRange): Text
    requires base <= r.start && r.end <= base + |v|
  {
    v[r.start - base..r.end - base]
  }

  /** A non-empty range of whole characters of `v`. */
  ghost predicate Whole(v: Text, base: nat, r: TextRange) {
    && base <= r.start && r.end <= base + |v|
    && Boundary(v, r.start - base) && Boundary(v, r.end - base)
  }

  ghost predicate Within(inner: TextRange, outer: TextRange) {
    outer.start <= inner.start && inner.end <= outer.end
  }

  /** What one node says about the source: its range is whole characters of `v`, its
      text is the source with at most two leading escape backslashes removed (two only in
      front of a doubled marker), and the
      nodes inside it tile the part of the source they were parsed from. */
  ghost predicate Faithful(x: Inline, v: Text, base: nat)
    decreases x
  {
    && x.range.start < x.range.end
    && Whole(v, base, x.range)
    && match x {
         case PlainText(r, value) =>
           var source := Slice(v, base, r);
           var escape := |source| - |value|;
           && 0 <= escape <= 2 && (escape == 2 ==> |value| == 2)
           && value == source[escape..]
           && (forall j :: 0 <= j < escape ==> source[j] == '\\')
         case HardBreak(_) => true
         case Styled(_, r, c, children) =>
           Within(c, r) && Whole(v, base, c) && Tiles(children, Slice(v, base, c), c.start, 0, c.end - c.start)
         case Link(r, c, None, caption) => Within(c, r) && Whole(v, base, c) && caption == []
         case Link(r, c, Some(l), caption) =>
           && Within(c, r) && Whole(v, base, c) && Within(l, r) && Whole(v, base, l) && c.end <= l.start
           && Tiles(caption, Slice(v, base, l), l.start, 0, l.end - l.start)
         case Reference(r, c, None, caption) => Within(c, r) && Whole(v, base, c) && caption == []
         case Reference(r, c, Some(l), caption) =>
           && Within(c, r) && Whole(v, base, c) && Within(l, r) && Whole(v, base, l) && c.end <= l.start
           && Tiles(caption, Slice(v, base, l), l.start, 0, l.end - l.start)
         case Literal(r, c, value) => Within(c, r) && Whole(v, base, c) && value == Slice(v, base, c)
         case AttributeReference(r, c, value) => Within(c, r) && Whole(v, base, c) && value == Slice(v, base, c)
         case Formula(r, c, value, _, _) => Within(c, r) && Whole(v, base, c) && value == Slice(v, base, c)
         case Macro(_, _, r, c, value, a) =>
           Within(c, r) && Whole(v, base, c) && value == Slice(v, base, c) && Within(a, r)
         case Passthrough(_, r, c, value) => Within(c, r) && Whole(v, base, c) && value == Slice(v, base, c)
       }
  }

  /** A text over its source, less the backslashes in front. */
  lemma TextIsFaithful(v: Text, base: nat, start: nat, escape: nat, end: nat)
    requires start + escape < end <= |v| && Boundary(v, start) && Boundary(v, end) && escape <= 2
      && (escape == 2 ==> end == start + 4)
    requires forall j :: start <= j < start + escape ==> v[j] == '\\'
    ensures Faithful(PlainText(Range(base + start, base + end), v[start + escape..end]), v, base)
  {
    hide Boundary;
    var source := Slice(v, base, Range(base + start, base + end));
    SliceOfSlice(v, start, end, escape, end - start);
    assert source == v[start..end];
    assert source[escape..] == source[escape..end - start];
    forall j | 0 <= j < escape ensures source[j] == '\\' {
      assert source[j] == v[start + j];
    }
  }

  /** The nodes cover `v[from..to]` without gap or overlap, in order. */
  ghost predicate Tiles(s: seq<Inline>, v: Text, base: nat, from: nat, to: nat)
    decreases s
  {
    if s == [] then from == to
    else
      var x := s[|s| - 1];
      && base + from <= x.range.start
      && x.range.end == base + to
      && Faithful(x, v, base)
      && Tiles(s[..|s| - 1], v, base, from, x.range.start - base)
  }

  lemma TilesAppend(s: seq<Inline>, x: Inline, v: Text, base: nat, from: nat, mid: nat, to: nat)
    requires Tiles(s, v, base, from, mid) && from <= mid
    requires x.range.start == base + mid && x.range.end == base + to && Faithful(x, v, base)
    ensures Tiles(s + [x], v, base, from, to)
  {
    assert (s + [x])[..|s|] == s;
  }
}
