/** The pure tests and recognisers of the inline scanner. */
module InlineGrammar {
  import opened Text
  import opened InlineModel

  // ---------------------------------------------------------------- characters

  predicate AsciiAlphabetic(c: char) { 'a' <= c <= 'z' || 'A' <= c <= 'Z' }

  predicate AsciiAlphanumeric(c: char) { AsciiAlphabetic(c) || '0' <= c <= '9' }

  /** The Unicode White_Space property, on the UTF-8 units of one character. */
  predicate Whitespace(c: Text) {
    || (|c| == 1 && ('\t' <= c[0] <= '\r' || c[0] == ' '))
    || c == "\U{C2}\U{85}" || c == "\U{C2}\U{A0}" || c == "\U{E1}\U{9A}\U{80}"
    || (|c| == 3 && c[..2] == "\U{E2}\U{80}" && ('\U{80}' <= c[2] <= '\U{8A}' || c[2] in "\U{A8}\U{A9}\U{AF}"))
    || c == "\U{E2}\U{81}\U{9F}" || c == "\U{E3}\U{80}\U{80}"
  }

  function CodePoint(c: Text): nat {
    if |c| == 2 then (c[0] as int % 0x20) * 0x40 + c[1] as int % 0x40
    else if |c| == 3 then (c[0] as int % 0x10) * 0x1000 + (c[1] as int % 0x40) * 0x40 + c[2] as int % 0x40
    else if |c| == 4 then
      (c[0] as int % 8) * 0x4_0000 + (c[1] as int % 0x40) * 0x1000 + (c[2] as int % 0x40) * 0x40 + c[3] as int % 0x40
    else if |c| == 1 then c[0] as int
    else 0
  }

  /** Scripts written without word spaces. */
  predicate Cjk(c: Text) {
    var p := CodePoint(c);
    || 0x3000 <= p <= 0x30FF || 0x3400 <= p <= 0x4DBF || 0x4E00 <= p <= 0x9FFF
    || 0x1100 <= p <= 0x11FF || 0xAC00 <= p <= 0xD7AF || 0xF900 <= p <= 0xFAFF
    || 0xFF00 <= p <= 0xFFEF || 0x2_0000 <= p <= 0x2_FA1F
  }

  predicate WordCharacter(t: WordTable, marker: char, c: Text) {
    && !Cjk(c)
    && ((if |c| == 1 then AsciiAlphanumeric(c[0]) else t(c)) || (marker == '`' && c == "_"))
  }

  /** The character before the boundary `i`. */
  function CharBefore(v: Segment, i: nat): Option<Text>
    requires i <= |v|
  {
    if i == 0 then None else Some(v[Previous(v, i)..i])
  }

  predicate SpaceAt(v: Segment, i: nat) {
    i < |v| && Boundary(v, i) && Whitespace(v[i..Next(v, i)])
  }

  predicate AnySpace(v: Segment, from: nat, to: nat) {
    exists i :: from <= i < to && SpaceAt(v, i)
  }

  lemma StartsAscii(v: Segment, i: nat, p: string)
    requires StartsWith(v, i, p) && p != [] && p[0] < '\U{80}' && p[|p| - 1] < '\U{80}'
    ensures v[i] == p[0] && v[i + |p| - 1] == p[|p| - 1]
    ensures Boundary(v, i) && Boundary(v, i + |p|)
  {
    assert v[i..i + |p|][0] == v[i];
    assert v[i..i + |p|][|p| - 1] == v[i + |p| - 1];
    AsciiIsWhole(v, i);
    AsciiIsWhole(v, i + |p| - 1);
  }

  // ---------------------------------------------------------------- escapes

  function BackslashRun(v: Text, i: nat): (r: nat)
    requires i <= |v|
    ensures r <= i
    ensures r > 0 ==> v[i - 1] == '\\'
  {
    if i == 0 || v[i - 1] != '\\' then 0 else 1 + BackslashRun(v, i - 1)
  }

  predicate IsEscaped(v: Text, i: nat)
    requires i <= |v|
  {
    BackslashRun(v, i) % 2 == 1
  }

  /** Backslashes an author wrote to keep the marker at `open` literal. */
  function MarkerEscapeWidth(v: Text, open: nat, form: MarkerForm): (r: nat)
    requires open <= |v|
    ensures r <= 2 && r <= open && forall j :: open - r <= j < open ==> v[j] == '\\'
  {
    if form.Unconstrained? && open >= 2 && v[open - 1] == '\\' && v[open - 2] == '\\' then 2
    else if IsEscaped(v, open) then 1
    else 0
  }

  // ---------------------------------------------------------------- boundaries

  predicate OpenBoundary(t: WordTable, v: Segment, i: nat)
    requires i < |v| && v[i] < '\U{80}'
  {
    AsciiIsWhole(v, i);
    && i + 1 < |v|
    && !SpaceAt(v, i + 1)
    && v[i + 1] != v[i]
    && match CharBefore(v, i)
       case None => true
       case Some(c) => !WordCharacter(t, v[i], c) && !(v[i] == '`' && c in [":", ";", "}"])
  }

  predicate CloseBoundary(t: WordTable, v: Segment, i: nat)
    requires i < |v| && v[i] < '\U{80}'
  {
    AsciiIsWhole(v, i);
    && 0 < i
    && !SpaceAt(v, Previous(v, i))
    && v[Previous(v, i)..i] != [v[i]]
    && (i + 1 == |v| || !WordCharacter(t, v[i], v[i + 1..Next(v, i + 1)]))
  }

  predicate TokenBoundary(c: Option<Text>) {
    c.None? || Whitespace(c.value) || c.value in ["(", "[", "{", "<", "\"", "'"]
  }

  predicate MacroBoundaryBefore(v: Segment, i: nat)
    requires i <= |v|
  {
    TokenBoundary(CharBefore(v, i)) || (IsEscaped(v, i) && 0 < i && TokenBoundary(CharBefore(v, i - 1)))
  }

  // ---------------------------------------------------------------- named macros

  /** `v` carries `p` at `i`, ignoring ASCII case, and `p` ends on a boundary. */
  predicate StartsIgnoringCase(v: Text, i: nat, p: string) {
    && i + |p| <= |v|
    && Boundary(v, i + |p|)
    && forall j :: 0 <= j < |p| ==> Lower(v[i + j]) == Lower(p[j])
  }

  datatype Named =
    | FormulaName(width: nat, language: Option<MathLanguage>)
    | PassName(width: nat)
    | XrefName(width: nat)
    | LinkName(width: nat)
    | StandardName(kind: MacroKind, form: MacroForm, width: nat)

  const PREFIXES: seq<(string, MacroKind, MacroForm)> := [
    ("image::", Image, BlockForm), ("icon::", Icon, BlockForm), ("audio::", Audio, BlockForm),
    ("video::", Video, BlockForm), ("footnote:", Footnote, InlineForm), ("anchor:", Anchor, InlineForm),
    ("bibanchor:", BibliographyAnchor, InlineForm), ("cite:", Citation, InlineForm),
    ("indexterm:", IndexTerm, InlineForm), ("kbd:", Keyboard, InlineForm), ("btn:", Button, InlineForm),
    ("menu:", Menu, InlineForm), ("image:", Image, InlineForm), ("icon:", Icon, InlineForm),
    ("audio:", Audio, InlineForm), ("video:", Video, InlineForm)]

  lemma NamedOpens(v: Text, i: nat, p: string)
    requires StartsIgnoringCase(v, i, p) && p != [] && AsciiAlphabetic(p[0])
    ensures i + |p| <= |v| && Boundary(v, i + |p|) && AsciiAlphabetic(v[i])
  {
    assert Lower(v[i + 0]) == Lower(p[0]);
  }

  function StandardPrefix(v: Text, i: nat, k: nat): (r: Option<Named>)
    requires k <= |PREFIXES|
    ensures r.Some? ==> r.value.StandardName? && NamedAt(v, i, r.value)
    decreases |PREFIXES| - k
  {
    if k == |PREFIXES| then None
    else if StartsIgnoringCase(v, i, PREFIXES[k].0) then
      NamedOpens(v, i, PREFIXES[k].0);
      Some(StandardName(PREFIXES[k].1, PREFIXES[k].2, |PREFIXES[k].0|))
    else StandardPrefix(v, i, k + 1)
  }

  /** A named prefix begins with an ASCII letter and ends on a boundary. */
  predicate NamedAt(v: Text, i: nat, n: Named) {
    && 4 <= n.width && i + n.width <= |v| && Boundary(v, i + n.width)
    && AsciiAlphabetic(v[i])
    && (n.FormulaName? || n.PassName? ==> 6 <= n.width)
  }

  function NamedPrefix(v: Text, i: nat): (r: Option<Named>)
    ensures r.Some? ==> NamedAt(v, i, r.value)
  {
    hide StartsIgnoringCase, Boundary, StandardPrefix;
    if StartsIgnoringCase(v, i, "stem:[") then
      NamedOpens(v, i, "stem:[");
      Some(FormulaName(6, None))
    else if StartsIgnoringCase(v, i, "latexmath:[") then
      NamedOpens(v, i, "latexmath:[");
      Some(FormulaName(11, Some(Latex)))
    else if StartsIgnoringCase(v, i, "asciimath:[") then
      NamedOpens(v, i, "asciimath:[");
      Some(FormulaName(11, Some(AsciiMath)))
    else if StartsIgnoringCase(v, i, "pass:[") then
      NamedOpens(v, i, "pass:[");
      Some(PassName(6))
    else if StartsIgnoringCase(v, i, "xref:") then
      NamedOpens(v, i, "xref:");
      Some(XrefName(5))
    else if StartsIgnoringCase(v, i, "link:") then
      NamedOpens(v, i, "link:");
      Some(LinkName(5))
    else StandardPrefix(v, i, 0)
  }

  // ---------------------------------------------------------------- email and URL

  predicate EmailLocal(c: char) { AsciiAlphanumeric(c) || c in "._+-" }

  predicate EmailDomain(c: char) { AsciiAlphanumeric(c) || c in ".-" }

  predicate SchemeUnit(c: char) { AsciiAlphanumeric(c) || c in "+-.%" }

  /** First offset at or after `i` whose unit fails `p`. */
  function SkipWhile(v: Text, i: nat, p: char -> bool): (r: nat)
    requires i <= |v|
    ensures i <= r <= |v| && (r < |v| ==> !p(v[r]))
    ensures forall j :: i <= j < r ==> p(v[j])
    decreases |v| - i
  {
    if i < |v| && p(v[i]) then SkipWhile(v, i + 1, p) else i
  }

  function TrimBack(v: Text, low: nat, i: nat, p: char -> bool): (r: nat)
    requires low <= i <= |v|
    ensures low <= r <= i && forall j :: r <= j < i ==> p(v[j])
    ensures low < r ==> !p(v[r - 1])
  {
    if low < i && p(v[i - 1]) then TrimBack(v, low, i - 1, p) else i
  }

  /** End of the e-mail address that starts at `i`. */
  function EmailEnd(v: Segment, i: nat): (r: Option<nat>)
    requires i <= |v|
    ensures r.Some? ==> i + 2 < r.value <= |v| && EmailDomain(v[r.value - 1]) && EmailLocal(v[i])
    ensures r.Some? ==> var at := SkipWhile(v, i, EmailLocal); at < |v| && v[at] == '@'
  {
    var at := SkipWhile(v, i, EmailLocal);
    if at == |v| || v[at] != '@' || at == i then None
    else
      var end := TrimBack(v, at + 1, SkipWhile(v, at + 1, EmailDomain), c => c == '.');
      if at + 1 < end && '.' in v[at + 1..end] && v[at + 1] != '.' && v[end - 1] != '-' then Some(end) else None
  }

  predicate EmailStart(v: Text, i: nat)
    requires i < |v|
  {
    EmailLocal(v[i]) && (i == 0 || !EmailLocal(v[i - 1]))
  }

  predicate UrlStart(v: Text, i: nat)
    requires i < |v|
  {
    AsciiAlphabetic(v[i]) && (i == 0 || !SchemeUnit(v[i - 1]))
  }

  /** The offset after the colon of the URL scheme that starts at `i`. */
  function SchemeEnd(v: Segment, i: nat): (r: Option<nat>)
    requires i <= |v|
    ensures r.Some? ==> i + 1 < r.value <= |v| && v[r.value - 1] == ':' && AsciiAlphabetic(v[i]) && Boundary(v, r.value)
  {
    var colon := SkipWhile(v, i, SchemeUnit);
    if colon == |v| || v[colon] != ':' || colon == i || !AsciiAlphabetic(v[i])
      || (colon == i + 4 && StartsIgnoringCase(v, i, "xref")) then None
    else
      AsciiIsWhole(v, colon);
      Some(colon + 1)
  }

  /** The first `[` or white-space character at or after the boundary `i`. */
  function LabelOrSpace(v: Segment, i: nat): (r: nat)
    requires i <= |v| && Boundary(v, i)
    ensures i <= r <= |v| && Boundary(v, r) && (r == |v| || v[r] == '[' || SpaceAt(v, r))
    ensures forall j :: i <= j < r ==> v[j] != '['
    ensures forall j: nat :: i <= j < r ==> !SpaceAt(v, j)
    decreases |v| - i
  {
    if i == |v| || v[i] == '[' || SpaceAt(v, i) then i
    else
      NextIsNext(v, i);
      LabelOrSpace(v, Next(v, i))
  }

  predicate UrlLinkCandidate(v: Segment, i: nat)
    requires i <= |v|
  {
    match SchemeEnd(v, i)
    case None => false
    case Some(s) =>
      || StartsWith(v, s, "//")
      || StartsIgnoringCase(v, i, "mailto:")
      || (var k := LabelOrSpace(v, s); k < |v| && v[k] == '[')
  }

  predicate NamedMacro(v: Segment, i: nat)
    requires i < |v|
  {
    var n := NamedPrefix(v, i);
    n.Some? && !(n.value.StandardName? && n.value.form.BlockForm?)
  }

  predicate MacroCandidate(v: Segment, i: nat)
    requires i < |v|
  {
    || NamedMacro(v, i)
    || (EmailStart(v, i) && EmailEnd(v, i).Some?)
    || (UrlStart(v, i) && UrlLinkCandidate(v, i))
  }

  /** What a macro candidate begins with. */
  predicate MacroOpens(v: Segment, i: nat)
    requires i < |v|
  {
    StartsWith(v, i, "<<") || StartsWith(v, i, "[[") || MacroCandidate(v, i)
  }

  // ---------------------------------------------------------------- safe restart points

  predicate TrailingPunctuation(c: char) { c in ".,;" }

  /** A URL without a label stops before punctuation that the white space, bracket or
      end of input after it made trailing. */
  ghost predicate UrlStop(v: Segment, p: nat) {
    exists k :: p <= k <= |v| && UrlStopAt(v, p, k)
  }

  ghost predicate UrlStopAt(v: Segment, p: nat, k: nat)
    requires p <= k <= |v|
  {
    && (forall j :: p <= j < k ==> TrailingPunctuation(v[j]))
    && (k == |v| || (v[k] == '[' && p < k) || SpaceAt(v, k))
  }

  /** No escaped candidate can start at `p`: pending text may begin there without
      losing the backslash of an escape that belongs to it. */
  ghost predicate SafeStart(v: Segment, p: nat) {
    p == 0 || (p <= |v| && (v[p - 1] != '\\' || UrlStop(v, p)))
  }

  lemma SpaceUnit(v: Segment, i: nat)
    requires SpaceAt(v, i)
    ensures v[i] == ' ' || '\t' <= v[i] <= '\r' || '\U{80}' <= v[i]
  {
    assert v[i..Next(v, i)][0] == v[i];
  }

  lemma NoEmailAtUrlStop(v: Segment, p: nat, k: nat)
    requires p <= k <= |v| && UrlStopAt(v, p, k)
    ensures EmailEnd(v, p).None?
  {
    if k < |v| && SpaceAt(v, k) {
      SpaceUnit(v, k);
    }
    var at := SkipWhile(v, p, EmailLocal);
    assert at < k ==> TrailingPunctuation(v[at]);
    assert k < |v| ==> v[k] != '@' && !EmailLocal(v[k]);
  }

  /** Neither a macro nor an escapable marker begins where a URL stopped. */
  lemma NothingOpensAtUrlStop(v: Segment, p: nat)
    requires p < |v| && UrlStop(v, p)
    ensures !MacroOpens(v, p)
    ensures v[p] !in "`*_#^~{\\+'\""
  {
    hide EmailEnd, UrlLinkCandidate, SpaceAt;
    var k :| p <= k <= |v| && UrlStopAt(v, p, k);
    NoEmailAtUrlStop(v, p, k);
    if k == p {
      SpaceUnit(v, p);
    }
    if StartsWith(v, p, "<<") {
      StartsAscii(v, p, "<<");
    }
    if StartsWith(v, p, "[[") {
      StartsAscii(v, p, "[[");
    }
  }

  // ---------------------------------------------------------------- compact indexes

  /** Offsets stored in 32 bits, with a reserved value for "none". */
  datatype CompactOffsets = CompactOffsets(slots: seq<nat>) {
    function Get(i: nat): Option<nat>
      requires i < |slots|
    {
      if slots[i] == MISSING then None else Some(slots[i])
    }
  }

  function Encode(o: Option<nat>): nat {
    match o case None => MISSING case Some(i) => i
  }

  datatype Delimiters = Delimiters(openBracket: CompactOffsets, closeBracket: CompactOffsets,
      doubleGreater: CompactOffsets)

  /** The index answers what a forward search from the same offset would. */
  ghost predicate Indexes(d: Delimiters, v: Segment) {
    && |d.openBracket.slots| == |d.closeBracket.slots| == |d.doubleGreater.slots| == |v| + 1
    && (forall i :: 0 <= i <= |v| ==> d.openBracket.Get(i) == NextUnit(v, i, '['))
    && (forall i :: 0 <= i <= |v| ==> d.closeBracket.Get(i) == NextUnit(v, i, ']'))
    && (forall i :: 0 <= i <= |v| ==> d.doubleGreater.Get(i) == Find(v, i, ">>"))
  }

  /** The index that forward searches from every offset would fill. */
  function DelimitersOf(v: Segment): (d: Delimiters)
    ensures Indexes(d, v)
  {
    Delimiters(
      CompactOffsets(seq(|v| + 1, i requires 0 <= i <= |v| => Encode(NextUnit(v, i, '[')))),
      CompactOffsets(seq(|v| + 1, i requires 0 <= i <= |v| => Encode(NextUnit(v, i, ']')))),
      CompactOffsets(seq(|v| + 1, i requires 0 <= i <= |v| => Encode(Find(v, i, ">>")))))
  }

  function LabelsOf(v: Segment): (u: seq<nat>)
    ensures |u| == |v| + 1
  {
    seq(|v| + 1, i requires 0 <= i <= |v| => if Boundary(v, i) then LabelOrSpace(v, i) else |v|)
  }

  // ---------------------------------------------------------------- footnote bodies

  /** Reads a footnote body one unit at a time, counting unescaped brackets: the first
      unescaped `]` at depth zero, else the first unescaped `]`, else nothing. */
  function FootnoteScan(v: Segment, i: nat, depth: nat, first: Option<nat>): (r: Option<nat>)
    requires i <= |v|
    requires first.Some? ==> first.value < |v| && v[first.value] == ']'
    ensures r.Some? ==> (r == first || i <= r.value < |v|) && v[r.value] == ']'
    decreases |v| - i
  {
    if i == |v| then first
    else if v[i] == '[' && !IsEscaped(v, i) then FootnoteScan(v, i + 1, depth + 1, first)
    else if v[i] == ']' && !IsEscaped(v, i) then
      if depth == 0 then Some(i)
      else FootnoteScan(v, i + 1, depth - 1, if first.None? then Some(i) else first)
    else FootnoteScan(v, i + 1, depth, first)
  }

  lemma {:induction false} FootnoteScanSkips(v: Segment, i: nat, j: nat, depth: nat, first: Option<nat>)
    requires i <= j <= |v| && forall k :: i <= k < j ==> v[k] != '[' && v[k] != ']'
    requires first.Some? ==> first.value < |v| && v[first.value] == ']'
    ensures FootnoteScan(v, i, depth, first) == FootnoteScan(v, j, depth, first)
    decreases j - i
  {
    if i < j {
      FootnoteScanSkips(v, i + 1, j, depth, first);
    }
  }

  /** Jumping through the bracket index finds the same `]` as the unit-by-unit scan. */
  method FootnoteClose(v: Segment, start: nat, d: Delimiters) returns (r: Option<nat>)
    requires start <= |v| && Indexes(d, v)
    ensures r == FootnoteScan(v, start, 0, None)
  {
    hide IsEscaped, Valid, NextUnit, Find;
    var firstClose: Option<nat> := None;
    var depth: nat := 0;
    var cursor := start;
    while d.closeBracket.Get(cursor).Some?
      invariant start <= cursor <= |v|
      invariant firstClose.Some? ==> firstClose.value < |v| && v[firstClose.value] == ']'
      invariant FootnoteScan(v, start, 0, None) == FootnoteScan(v, cursor, depth, firstClose)
      decreases |v| - cursor
    {
      var close := d.closeBracket.Get(cursor).value;
      var open := d.openBracket.Get(cursor);
      NextUnitIsFirst(v, cursor, '[');
      NextUnitIsFirst(v, cursor, ']');
      if open.Some? && open.value < close {
        FootnoteScanSkips(v, cursor, open.value, depth, firstClose);
        if !IsEscaped(v, open.value) {
          depth := depth + 1;
        }
        cursor := open.value + 1;
        continue;
      }
      FootnoteScanSkips(v, cursor, close, depth, firstClose);
      cursor := close + 1;
      if IsEscaped(v, close) {
        continue;
      }
      if depth == 0 {
        return Some(close);
      }
      if firstClose.None? {
        firstClose := Some(close);
      }
      depth := depth - 1;
    }
    NextUnitIsFirst(v, cursor, ']');
    FootnoteEnds(v, cursor, depth, firstClose);
    return firstClose;
  }

  /** Without another `]` the scan answers what it has already seen. */
  lemma {:induction false} FootnoteEnds(v: Segment, i: nat, depth: nat, first: Option<nat>)
    requires i <= |v| && forall k :: i <= k < |v| ==> v[k] != ']'
    requires first.Some? ==> first.value < |v| && v[first.value] == ']'
    ensures FootnoteScan(v, i, depth, first) == first
    decreases |v| - i
  {
    if i < |v| {
      FootnoteEnds(v, i + 1, depth, first);
      FootnoteEnds(v, i + 1, depth + 1, first);
    }
  }
}
