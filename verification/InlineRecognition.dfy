/** Token recognition from an opening position, over precomputed delimiter indexes. */
module InlineRecognition {
  import opened Text
  import opened InlineModel
  import opened InlineGrammar

  /** Every slot answers the forward search for a label bracket or white space. */
  ghost predicate IndexesLabels(u: seq<nat>, v: Segment) {
    && |u| == |v| + 1
    && forall i :: 0 <= i <= |v| && Boundary(v, i) ==> u[i] == LabelOrSpace(v, i)
  }

  /** The offsets of a token lie in order, on boundaries, and pending text may restart at its end. */
  ghost predicate MacroOk(v: Segment, t: MacroToken) {
    && t.open < t.end <= |v| && Boundary(v, t.open) && Boundary(v, t.end) && SafeStart(v, t.end)
    && match t {
         case FormulaToken(open, s, e, end, _, _) =>
           open + 2 <= s <= e <= end && Boundary(v, s) && Boundary(v, e)
         case PassToken(open, s, e, end) =>
           open + 2 <= s <= e < end && Boundary(v, s) && Boundary(v, e)
         case ShortReference(open, s, close, end) =>
           open < s <= close < end && Boundary(v, s) && Boundary(v, close)
         case Xref(open, s, bracket, close, end) => Bracketed(v, open, s, bracket, close, end)
         case ExplicitLink(open, s, bracket, close, end) => Bracketed(v, open, s, bracket, close, end)
         case Standard(_, _, open, s, bracket, close, end) => Bracketed(v, open, s, bracket, close, end)
         case Url(open, targetEnd, caption, end) =>
           && open < targetEnd <= end && Boundary(v, targetEnd)
           && (caption.Some? ==>
                 && targetEnd < caption.value.start && caption.value.end < end
                 && Boundary(v, caption.value.start) && Boundary(v, caption.value.end))
         case ShorthandAnchor(_, open, s, e, caption, end) =>
           && open < s <= e < end && Boundary(v, s) && Boundary(v, e)
           && (caption.Some? ==> e <= caption.value.start && caption.value.end <= end)
         case EmailAddress(_, _) => true
       }
  }

  ghost predicate Bracketed(v: Segment, open: nat, s: nat, bracket: nat, close: nat, end: nat) {
    && open < s <= bracket < close < end
    && Boundary(v, s) && Boundary(v, bracket) && Boundary(v, bracket + 1) && Boundary(v, close)
  }

  ghost predicate RecognizedOk(v: Segment, open: nat, r: Recognition<MacroToken>) {
    match r
    case Matched(t) => t.open == open && MacroOk(v, t)
    case Recovered(next, _) => open < next <= |v| && Boundary(v, next)
    case Rejected(next) => open < next <= |v| && Boundary(v, next)
  }

  lemma AsciiEnd(v: Segment, i: nat)
    requires i < |v| && v[i] < '\U{80}' && v[i] != '\\'
    ensures Boundary(v, i) && Boundary(v, i + 1) && SafeStart(v, i + 1)
  {
    AsciiIsWhole(v, i);
  }

  function SplitAnchorLabel(v: Segment, s: nat, close: nat): (r: (nat, Option<TextRange>))
    requires s <= close <= |v| && Boundary(v, close)
    ensures s <= r.0 <= close && Boundary(v, r.0)
    ensures r.1.Some? ==> r.0 < r.1.value.start && r.1.value.end == close
  {
    var comma := NextUnit(v, s, ',');
    if comma.Some? && comma.value < close then
      AsciiIsWhole(v, comma.value);
      (comma.value, Some(Range(comma.value + 1, close)))
    else (close, None)
  }

  /** `[[[id,text]]]` for width 3 and `[[id,text]]` for width 2. */
  function RecognizeAnchor(v: Segment, open: nat, width: nat, kind: MacroKind): (r: Option<Recognition<MacroToken>>)
    requires open < |v| && 2 <= width <= 3
    ensures r.Some? ==> RecognizedOk(v, open, r.value)
  {
    var brackets, closers := if width == 3 then "[[[" else "[[", if width == 3 then "]]]" else "]]";
    var close := Find(v, open + width, closers);
    if !StartsWith(v, open, brackets) || close.None? then None
    else
      StartsAscii(v, open, brackets);
      StartsAscii(v, close.value, closers);
      AsciiEnd(v, close.value + width - 1);
      var (targetEnd, caption) := SplitAnchorLabel(v, open + width, close.value);
      Some(Matched(ShorthandAnchor(kind, open, open + width, targetEnd, caption, close.value + width)))
  }

  /** A macro of the form `name:target[...]`, whose closing bracket `closeFrom` locates. */
  function RecognizeBracketed(v: Segment, open: nat, n: Named, d: Delimiters): (r: Recognition<MacroToken>)
    requires open < |v| && Boundary(v, open) && Indexes(d, v)
    requires NamedAt(v, open, n) && (n.XrefName? || n.LinkName? || n.StandardName?)
    ensures RecognizedOk(v, open, r)
  {
    var problem := if n.XrefName? then IncompleteCrossReference else IncompleteLink;
    var start := open + n.width;
    var bracket := d.openBracket.Get(start);
    if bracket.None? then Recovered(Next(v, open), problem)
    else if AnySpace(v, start, bracket.value) then Rejected(Next(v, open))
    else
      var b := bracket.value;
      AsciiIsWhole(v, b);
      var close :=
        if n.StandardName? && n.kind.Footnote? then FootnoteScan(v, b + 1, 0, None)
        else d.closeBracket.Get(b + 1);
      if close.None? then Recovered(Next(v, open), problem)
      else
        var c := close.value;
        AsciiEnd(v, c);
        Matched(
          if n.XrefName? then Xref(open, start, b, c, c + 1)
          else if n.LinkName? then ExplicitLink(open, start, b, c, c + 1)
          else Standard(n.kind, n.form, open, start, b, c, c + 1))
  }

  /** End of a URL target: the first label bracket or white space after the scheme,
      less the punctuation before it. */
  function UrlTargetEnd(v: Segment, open: nat, scheme: nat): (r: nat)
    requires open < scheme <= |v| && Boundary(v, scheme)
    ensures open <= r <= |v|
    ensures 0 < r ==> Boundary(v, r) && (r == |v| || v[r] != '[' ==> SafeStart(v, r))
  {
    var stop := LabelOrSpace(v, scheme);
    var r := TrimBack(v, open, stop, TrailingPunctuation);
    if 0 < r then UrlTrimmed(v, r, stop); r else r
  }

  function RecognizeUrl(v: Segment, open: nat, d: Delimiters, u: seq<nat>): (r: Recognition<MacroToken>)
    requires open < |v| && Boundary(v, open) && Indexes(d, v) && IndexesLabels(u, v)
    ensures RecognizedOk(v, open, r)
  {
    var scheme := SchemeEnd(v, open);
    if scheme.None? then Rejected(Next(v, open))
    else
      assert u[scheme.value] == LabelOrSpace(v, scheme.value);
      assert TrimBack(v, open, u[scheme.value], TrailingPunctuation) == UrlTargetEnd(v, open, scheme.value);
      var targetEnd := TrimBack(v, open, u[scheme.value], TrailingPunctuation);
      if targetEnd <= scheme.value then Rejected(Next(v, open))
      else UrlWithLabel(v, open, targetEnd, d)
  }

  function UrlWithLabel(v: Segment, open: nat, targetEnd: nat, d: Delimiters): (r: Recognition<MacroToken>)
    requires open < targetEnd <= |v| && Boundary(v, open) && Boundary(v, targetEnd) && Indexes(d, v)
    requires targetEnd == |v| || v[targetEnd] != '[' ==> SafeStart(v, targetEnd)
    ensures RecognizedOk(v, open, r)
  {
    if targetEnd < |v| && v[targetEnd] == '[' then
      var close := d.closeBracket.Get(targetEnd + 1);
      if close.None? then Recovered(Next(v, open), IncompleteLink)
      else
        AsciiEnd(v, close.value);
        AsciiIsWhole(v, targetEnd);
        Matched(Url(open, targetEnd, Some(Range(targetEnd + 1, close.value)), close.value + 1))
    else Matched(Url(open, targetEnd, None, targetEnd))
  }

  lemma UrlTrimmed(v: Segment, targetEnd: nat, stop: nat)
    requires 0 < targetEnd <= stop <= |v| && Boundary(v, stop)
    requires stop == |v| || v[stop] == '[' || SpaceAt(v, stop)
    requires forall j :: targetEnd <= j < stop ==> TrailingPunctuation(v[j])
    ensures Boundary(v, targetEnd)
    ensures targetEnd == |v| || v[targetEnd] != '[' ==> SafeStart(v, targetEnd)
  {
    if targetEnd < stop {
      AsciiIsWhole(v, targetEnd);
    }
    if targetEnd == |v| || v[targetEnd] != '[' {
      assert UrlStopAt(v, targetEnd, stop);
    }
  }

  /** Formulas and pass macros, whose content is not parsed. An open formula runs to the end. */
  function RecognizeVerbatim(v: Segment, open: nat, n: Named, d: Delimiters): (r: Recognition<MacroToken>)
    requires open < |v| && Boundary(v, open) && Indexes(d, v)
    requires NamedAt(v, open, n) && (n.FormulaName? || n.PassName?)
    ensures RecognizedOk(v, open, r)
  {
    var start := open + n.width;
    var close := d.closeBracket.Get(start);
    if close.None? then
      if n.PassName? then Recovered(Next(v, open), UnclosedPassthrough)
      else
        assert UrlStopAt(v, |v|, |v|);
        Matched(FormulaToken(open, start, |v|, |v|, false, n.language))
    else
      AsciiEnd(v, close.value);
      Matched(
        if n.PassName? then PassToken(open, start, close.value, close.value + 1)
        else FormulaToken(open, start, close.value, close.value + 1, true, n.language))
  }

  function RecognizeShort(v: Segment, open: nat, d: Delimiters): (r: Recognition<MacroToken>)
    requires open < |v| && Boundary(v, open) && Indexes(d, v) && StartsWith(v, open, "<<")
    ensures RecognizedOk(v, open, r)
  {
    StartsAscii(v, open, "<<");
    var close := d.doubleGreater.Get(open + 2);
    if close.None? then Recovered(Next(v, open), IncompleteCrossReference)
    else
      StartsAscii(v, close.value, ">>");
      AsciiEnd(v, close.value + 1);
      Matched(ShortReference(open, open + 2, close.value, close.value + 2))
  }

  /** Recognises the macro, reference, link or address that starts at `open`. */
  function RecognizeMacro(v: Segment, open: nat, d: Delimiters, u: seq<nat>): (r: Recognition<MacroToken>)
    requires open < |v| && Boundary(v, open) && Indexes(d, v) && IndexesLabels(u, v)
    ensures RecognizedOk(v, open, r)
  {
    var bibliography := RecognizeAnchor(v, open, 3, BibliographyAnchor);
    var anchor := RecognizeAnchor(v, open, 2, Anchor);
    var named := NamedPrefix(v, open);
    if bibliography.Some? then bibliography.value
    else if anchor.Some? then anchor.value
    else if named.Some? && (named.value.FormulaName? || named.value.PassName?) then
      RecognizeVerbatim(v, open, named.value, d)
    else if StartsWith(v, open, "<<") then RecognizeShort(v, open, d)
    else if named.Some? then RecognizeBracketed(v, open, named.value, d)
    else if EmailEnd(v, open).Some? then RecognizeEmail(v, open)
    else RecognizeUrl(v, open, d, u)
  }

  function RecognizeEmail(v: Segment, open: nat): (r: Recognition<MacroToken>)
    requires open < |v| && Boundary(v, open) && EmailEnd(v, open).Some?
    ensures RecognizedOk(v, open, r)
  {
    AsciiEnd(v, EmailEnd(v, open).value - 1);
    Matched(EmailAddress(open, EmailEnd(v, open).value))
  }

  /** The offset after the name of a macro whose left boundary is missing, and that name. */
  function MacroBoundarySubject(v: Segment, t: MacroToken): (r: Option<(nat, string)>)
    requires MacroOk(v, t)
    ensures r.Some? ==> t.open <= r.value.0 <= |v|
  {
    match t
    case FormulaToken(open, s, _, _, _, _) =>
      Some((s - 2, if StartsIgnoringCase(v, open, "latexmath:[") then "latexmath"
                   else if StartsIgnoringCase(v, open, "asciimath:[") then "asciimath" else "stem"))
    case PassToken(_, s, _, _) => Some((s - 2, "pass"))
    case Xref(_, s, _, _, _) => Some((s - 1, "xref"))
    case ExplicitLink(_, s, _, _, _) => Some((s - 1, "link"))
    case Url(open, _, _, _) =>
      var scheme := SchemeEnd(v, open);
      if StartsIgnoringCase(v, open, "include::") || scheme.None? then None else Some((scheme.value - 1, "URL"))
    case Standard(kind, form, _, s, _, _, _) =>
      if form.InlineForm? then Some((s - 1, MacroName(kind))) else None
    case EmailAddress(_, end) => Some((end, "email"))
    case ShortReference(_, _, _, _) => None
    case ShorthandAnchor(_, _, _, _, _, _) => None
  }

  function MacroName(kind: MacroKind): string {
    match kind
    case Email => "email" case Footnote => "footnote" case Anchor => "anchor"
    case BibliographyAnchor => "bibanchor" case Citation => "cite" case IndexTerm => "indexterm"
    case Keyboard => "kbd" case Button => "btn" case Menu => "menu" case Image => "image"
    case Icon => "icon" case Audio => "audio" case Video => "video"
  }

  // ---------------------------------------------------------------- markers

  predicate MarkerUnit(c: char) { c in "`*_#" }

  /** Offset of `i` inside the maximal run of one formatting marker. */
  function RunOffset(v: Text, i: nat): (r: nat)
    requires i < |v|
    ensures r <= i
  {
    if i == 0 || v[i - 1] != v[i] then 0 else 1 + RunOffset(v, i - 1)
  }

  /** Whether a two-unit marker starts at `i`: pairs are laid from the start of each run. */
  predicate Paired(v: Text, i: int) {
    0 <= i && i + 1 < |v| && MarkerUnit(v[i]) && v[i + 1] == v[i] && RunOffset(v, i) % 2 == 0
  }

  /** Pairs of one marker never overlap. */
  lemma PairsDisjoint(v: Text, i: nat)
    requires Paired(v, i)
    ensures !Paired(v, i + 1)
  {
    assert i + 2 < |v| ==> RunOffset(v, i + 1) == 1 + RunOffset(v, i);
  }

  /** Whether the unit at `i` can close a span that `marker` opened in this form. */
  predicate Closes(t: WordTable, v: Segment, marker: char, form: MarkerForm, i: nat)
    requires i < |v|
  {
    if form.Unconstrained? then MarkerUnit(marker) && v[i] == marker && Paired(v, i)
    else if MarkerUnit(marker) then v[i] == marker && CloseBoundary(t, v, i)
    else if marker == '{' then v[i] == '}'
    else marker in "~^" && v[i] == marker
  }

  /** The nearest closer at or after `i`, by forward search. */
  function NextCloser(t: WordTable, v: Segment, marker: char, form: MarkerForm, i: nat): (r: Option<nat>)
    ensures r.Some? ==> i <= r.value < |v| && Closes(t, v, marker, form, r.value)
    ensures forall j :: i <= j < (if r.Some? then r.value else |v|) ==> !Closes(t, v, marker, form, j)
    decreases |v| - i
  {
    if |v| <= i then None
    else if Closes(t, v, marker, form, i) then Some(i)
    else NextCloser(t, v, marker, form, i + 1)
  }

  predicate AttributeName(name: Text) {
    name != [] && forall i :: 0 <= i < |name| ==> AsciiAlphanumeric(name[i]) || name[i] in "_-."
  }

  /** `counter:name`, `counter2:name` and their `:seed` forms. */
  predicate CounterReference(name: Text) {
    var start := if StartsWith(name, 0, "counter2:") then 9 else if StartsWith(name, 0, "counter:") then 8 else 0;
    && start > 0
    && var seed := NextUnit(name, start, ':');
       AttributeName(name[start..if seed.Some? then seed.value else |name|])
  }

  function UnclosedProblem(marker: char): ProblemKind {
    match marker
    case '`' => UnclosedMonospace
    case '*' => UnclosedStrong
    case '_' => UnclosedEmphasis
    case '#' => UnclosedHighlight
    case '~' => UnclosedSubscript
    case '^' => UnclosedSuperscript
    case _ => UnclosedAttributeReference
  }

  /** A marker candidate: its units are in the text and its closer is the nearest later one. */
  ghost predicate MarkerOk(t: WordTable, v: Segment, open: nat, marker: char, form: MarkerForm, close: Option<nat>) {
    && open < |v| && v[open] == marker && marker in "`*_#^~{"
    && (form.Unconstrained? ==> Paired(v, open))
    && close == NextCloser(t, v, marker, form, open + 1)
  }

  ghost predicate MarkerTokenOk(v: Segment, t: MarkerToken) {
    var w := t.form.Width();
    && t.open + w < t.close && t.close + w == t.end <= |v|
    && t.marker in "`*_#^~{" && v[t.open] == t.marker
    && v[t.close] == (if t.marker == '{' then '}' else t.marker)
    && (t.form.Unconstrained? ==> v[t.open + 1] == v[t.close + 1] == t.marker)
    && Boundary(v, t.open) && Boundary(v, t.open + w) && Boundary(v, t.close) && Boundary(v, t.end)
    && SafeStart(v, t.end)
  }

  lemma CloserFits(t: WordTable, v: Segment, open: nat, marker: char, form: MarkerForm, close: nat)
    requires MarkerOk(t, v, open, marker, form, Some(close))
    ensures open + form.Width() <= close && close + form.Width() <= |v|
    ensures Boundary(v, open) && Boundary(v, open + form.Width())
    ensures Boundary(v, close) && Boundary(v, close + form.Width()) && SafeStart(v, close + form.Width())
  {
    AsciiIsWhole(v, open);
    AsciiEnd(v, close);
    if form.Unconstrained? {
      PairsDisjoint(v, open);
      AsciiIsWhole(v, open + 1);
      AsciiEnd(v, close + 1);
    }
  }

  lemma MarkerStarts(v: Segment, open: nat, form: MarkerForm)
    requires open < |v| && v[open] in "`*_#^~{" && (form.Unconstrained? ==> Paired(v, open))
    ensures open + form.Width() <= |v|
    ensures Boundary(v, open) && Boundary(v, open + form.Width())
  {
    AsciiIsWhole(v, open);
    if form.Unconstrained? {
      AsciiIsWhole(v, open + 1);
    }
  }

  function RecognizeMarker(t: WordTable, v: Segment, open: nat, marker: char, form: MarkerForm, close: Option<nat>)
    : (r: Recognition<MarkerToken>)
    requires MarkerOk(t, v, open, marker, form, close)
    ensures r.Matched? ==>
      MarkerTokenOk(v, r.token) && r.token.open == open && r.token.marker == marker && r.token.form == form
    ensures !r.Matched? ==> open < r.next <= |v| && Boundary(v, r.next)
  {
    MarkerStarts(v, open, form);
    var next := open + form.Width();
    match close
    case None =>
      if form.Unconstrained? && (next == |v| || SpaceAt(v, next)) then Rejected(next)
      else Recovered(next, UnclosedProblem(marker))
    case Some(c) =>
      CloserFits(t, v, open, marker, form, c);
      if c == next then Rejected(c + form.Width())
      else if marker == '{' && !AttributeName(v[next..c]) && !CounterReference(v[next..c]) then Rejected(next)
      else if marker in "^~" && AnySpace(v, next, c) then Rejected(next)
      else Matched(MarkerToken(open, c, c + form.Width(), marker, form))
  }
}
