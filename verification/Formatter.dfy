/** The line formatter: edits over the physical lines outside protected ranges. */
module Formatter {
  import opened Text
  import opened Source
  import opened Edits
  import G = BlockGrammar

  datatype Newline = LfStyle | CrLfStyle

  datatype Config = Config(newline: Newline, finalNewline: bool, maxBlank: nat)

  /** A text with its line table, the ranges that must not change, and where attributes start. */
  datatype Input = Input(source: Text, lines: seq<Line>, protected: seq<TextRange>, attributeStarts: set<int>)

  ghost predicate Ready(x: Input) {
    Valid(x.source) && LinesOk(x.source, x.lines, 0)
  }

  function NewlineText(n: Newline): Text { if n.LfStyle? then "\n" else "\r\n" }

  function EndingText(kind: LineEnding): Text {
    match kind case NoEnding => "" case Lf => "\n" case CrLf => "\r\n"
  }

  // ---------------------------------------------------------------- one line

  function ContentOf(x: Input, i: nat): Text
    requires i < |x.lines|
  {
    match TextOf(x.source, x.lines[i].content) case Some(t) => t case None => []
  }

  lemma LineFacts(x: Input, i: nat)
    requires Ready(x) && i < |x.lines|
    ensures var v, l := x.source, x.lines[i];
      && LineOk(v, l) && l.full.end == (if i + 1 < |x.lines| then x.lines[i + 1].full.start else |v|)
      && ContentOf(x, i) == v[l.content.start..l.content.end]
      && v[l.content.end..l.full.end] == EndingText(l.kind)
      && (i + 1 < |x.lines| ==> !l.kind.NoEnding?)
  {
    LinesAt(x.source, x.lines, 0, i);
    LastIsBare(x.source, x.lines, 0, i);
  }

  predicate Overlap(a: TextRange, b: TextRange) {
    a.start < b.end && b.start < a.end
  }

  predicate Shielded(x: Input, i: nat)
    requires i < |x.lines|
  {
    exists r :: r in x.protected && Overlap(r, x.lines[i].full)
  }

  predicate Empty(l: Line) { l.full.start == l.full.end }

  /** The last line that holds anything. */
  function LastReal(x: Input, n: nat): (r: Option<nat>)
    requires n <= |x.lines|
    ensures r.Some? ==> r.value < n && !Empty(x.lines[r.value])
  {
    if n == 0 then None else if !Empty(x.lines[n - 1]) then Some(n - 1) else LastReal(x, n - 1)
  }

  /** Whether the next line from `i` that is no comment starts an attribute. */
  function BeforeAttribute(x: Input, i: nat): bool
    requires i <= |x.lines|
    decreases |x.lines| - i
  {
    i < |x.lines| &&
    if G.Starts(ContentOf(x, i), "//") then BeforeAttribute(x, i + 1) else x.lines[i].full.start in x.attributeStarts
  }

  /** Blank lines that count: the empty rest after a final newline does not. */
  predicate BlankLine(x: Input, i: nat)
    requires i < |x.lines|
  {
    G.AllBlank(ContentOf(x, i)) && !(Empty(x.lines[i]) && x.lines[i].kind.NoEnding?)
  }

  function NextBlank(x: Input, i: nat, blank: nat): nat
    requires i < |x.lines|
  {
    if Shielded(x, i) || !BlankLine(x, i) then 0 else blank + 1
  }

  /** Blank lines over the limit go, unless they set off an attribute. */
  predicate Removed(x: Input, cfg: Config, i: nat, blank: nat)
    requires i < |x.lines|
  {
    !Shielded(x, i) && BlankLine(x, i) && cfg.maxBlank < blank + 1 && !BeforeAttribute(x, i + 1)
  }

  /** Trailing blanks that keep a line from being a delimiter, metadata or an anchor. */
  predicate Structural(c: Text) {
    var t := c[..G.TrimmedEnd(c)];
    t != c && (G.DelimiterOf(t).Some? || G.BlockAttributes(t) || G.AnchorLine(t))
  }

  function KeptEnd(c: Text): (r: nat)
    ensures r <= |c|
  {
    if Structural(c) then |c| else G.TrimmedEnd(c)
  }

  function EndingFor(x: Input, cfg: Config, i: nat): Text
    requires i < |x.lines|
  {
    if x.lines[i].kind.NoEnding? || (Some(i) == LastReal(x, |x.lines|) && !cfg.finalNewline) then ""
    else NewlineText(cfg.newline)
  }

  function LineEdits(x: Input, cfg: Config, i: nat, blank: nat): seq<Edit>
    requires i < |x.lines|
  {
    var l, c := x.lines[i], ContentOf(x, i);
    if Shielded(x, i) then []
    else if Removed(x, cfg, i, blank) then [Edit(l.full, "")]
    else
      (if KeptEnd(c) < |c| && l.content.start + KeptEnd(c) <= l.content.end then
        [Edit(Range(l.content.start + KeptEnd(c), l.content.end), "")] else [])
      + if !l.kind.NoEnding? && EndingText(l.kind) != EndingFor(x, cfg, i) then
        [Edit(l.ending, EndingFor(x, cfg, i))] else []
  }

  /** The line as it comes out. */
  function FormattedLine(x: Input, cfg: Config, i: nat, blank: nat): Text
    requires i < |x.lines|
  {
    var c := ContentOf(x, i);
    if Shielded(x, i) then c + EndingText(x.lines[i].kind)
    else if Removed(x, cfg, i, blank) then ""
    else c[..KeptEnd(c)] + EndingFor(x, cfg, i)
  }

  // ---------------------------------------------------------------- the whole text

  predicate EndsInNewline(v: Text) { v != [] && v[|v| - 1] == '\n' }

  predicate AddsNewline(x: Input, cfg: Config) {
    && cfg.finalNewline && x.source != [] && !EndsInNewline(x.source)
    && var last := LastReal(x, |x.lines|); last.Some? && !Shielded(x, last.value)
  }

  function FinalEdit(x: Input, cfg: Config): seq<Edit> {
    if AddsNewline(x, cfg) then [Edit(Range(|x.source|, |x.source|), NewlineText(cfg.newline))] else []
  }

  function EditsFrom(x: Input, cfg: Config, i: nat, blank: nat): seq<Edit>
    requires i <= |x.lines|
    decreases |x.lines| - i
  {
    if i == |x.lines| then FinalEdit(x, cfg)
    else LineEdits(x, cfg, i, blank) + EditsFrom(x, cfg, i + 1, NextBlank(x, i, blank))
  }

  /** The formatted text, line by line from left to right. */
  function TextFrom(x: Input, cfg: Config, i: nat, blank: nat): Text
    requires i <= |x.lines|
    decreases |x.lines| - i
  {
    if i == |x.lines| then (if AddsNewline(x, cfg) then NewlineText(cfg.newline) else "")
    else FormattedLine(x, cfg, i, blank) + TextFrom(x, cfg, i + 1, NextBlank(x, i, blank))
  }

  function LineStart(x: Input, i: nat): nat
    requires i <= |x.lines|
  {
    if i < |x.lines| then x.lines[i].full.start else |x.source|
  }

  ghost predicate LineAgrees(x: Input, cfg: Config, i: nat, blank: nat, rest: seq<Edit>)
    requires i < |x.lines|
  {
    var v, s, e := x.source, x.lines[i].full.start, x.lines[i].full.end;
    && s <= e <= |v| && Ascending(rest, e, |v|)
    && Ascending(LineEdits(x, cfg, i, blank) + rest, s, |v|)
    && Rebuilt(v, LineEdits(x, cfg, i, blank) + rest, s) == FormattedLine(x, cfg, i, blank) + Rebuilt(v, rest, e)
  }

  lemma PrependEdit(v: Text, e: Edit, rest: seq<Edit>, from: nat)
    requires from <= e.range.start < e.range.end <= |v| && Ascending(rest, e.range.end, |v|)
    ensures Ascending([e] + rest, from, |v|)
    ensures Rebuilt(v, [e] + rest, from) == v[from..e.range.start] + e.replacement + Rebuilt(v, rest, e.range.end)
  {
    assert ([e] + rest)[1..] == rest;
  }

  /** The edits of a line, followed by later edits, give the formatted line, followed by the rest. */
  lemma LineKeeps(x: Input, cfg: Config, i: nat, blank: nat, rest: seq<Edit>)
    requires Ready(x) && i < |x.lines| && Ascending(rest, x.lines[i].full.end, |x.source|)
    ensures LineAgrees(x, cfg, i, blank, rest)
  {
    hide Ready, Ascending, Rebuilt, Shielded, Structural, LastReal, BeforeAttribute, EndingFor, KeptEnd;
    LineFacts(x, i);
    var v, l, c := x.source, x.lines[i], ContentOf(x, i);
    if Shielded(x, i) {
      RebuiltLater(v, rest, l.full.start, l.full.end);
      assert [] + rest == rest;
      assert v[l.full.start..l.full.end] == c + EndingText(l.kind);
    } else if Removed(x, cfg, i, blank) {
      PrependEdit(v, Edit(l.full, ""), rest, l.full.start);
    } else {
      KeptLineKeeps(x, cfg, i, blank, rest);
    }
  }

  lemma KeptLineKeeps(x: Input, cfg: Config, i: nat, blank: nat, rest: seq<Edit>)
    requires Ready(x) && i < |x.lines| && Ascending(rest, x.lines[i].full.end, |x.source|)
    requires !Shielded(x, i) && !Removed(x, cfg, i, blank)
    ensures LineAgrees(x, cfg, i, blank, rest)
  {
    hide Ready, Ascending, Rebuilt, Shielded, LastReal, Removed, KeptEnd, ContentOf, LineOk, BeforeAttribute, EndingFor,
      LineEdits, FormattedLine;
    LineFacts(x, i);
    LineBounds(x, i);
    KeptLineIs(x, cfg, i, blank);
    var v, l, c := x.source, x.lines[i], ContentOf(x, i);
    var k, ending := KeptEnd(c), EndingFor(x, cfg, i);
    var second := if !l.kind.NoEnding? && EndingText(l.kind) != ending then [Edit(l.ending, ending)] else [];
    EndingKeeps(x, cfg, i, rest);
    var after, tail := Rebuilt(v, second + rest, l.content.end), Rebuilt(v, rest, l.full.end);
    var first := if k < |c| then [Edit(Range(l.content.start + k, l.content.end), "")] else [];
    assert LineEdits(x, cfg, i, blank) == first + second;
    assert first + second + rest == first + (second + rest);
    if k < |c| {
      PrependEdit(v, first[0], second + rest, l.content.start);
      PrefixOfSlice(v, l.content.start, l.content.end, k);
      assert c[..k] + "" == c[..k];
    } else {
      RebuiltLater(v, second + rest, l.content.start, l.content.end);
      assert [] + (second + rest) == second + rest;
      assert c[..k] == c;
    }
    Associates(c[..k], ending, tail);
  }

  lemma KeptLineIs(x: Input, cfg: Config, i: nat, blank: nat)
    requires i < |x.lines| && !Shielded(x, i) && !Removed(x, cfg, i, blank)
    ensures var l, k, ending := x.lines[i], KeptEnd(ContentOf(x, i)), EndingFor(x, cfg, i);
      && FormattedLine(x, cfg, i, blank) == ContentOf(x, i)[..k] + ending
      && LineEdits(x, cfg, i, blank)
         == (if k < |ContentOf(x, i)| && l.content.start + k <= l.content.end then
               [Edit(Range(l.content.start + k, l.content.end), "")]
             else [])
            + (if !l.kind.NoEnding? && EndingText(l.kind) != ending then [Edit(l.ending, ending)] else [])
  {
    hide Shielded, Removed, KeptEnd, ContentOf, EndingFor;
  }

  lemma Associates(a: Text, b: Text, c: Text)
    ensures a + (b + c) == a + b + c
  {
  }

  lemma LineBounds(x: Input, i: nat)
    requires Ready(x) && i < |x.lines|
    ensures var l := x.lines[i];
      && l.full.start == l.content.start <= l.content.end == l.ending.start <= l.ending.end == l.full.end <= |x.source|
      && |ContentOf(x, i)| == l.content.end - l.content.start
  {
    LineFacts(x, i);
  }

  lemma PrefixOfSlice(v: Text, start: nat, end: nat, k: nat)
    requires start + k <= end <= |v|
    ensures v[start..end][..k] == v[start..start + k]
  {
  }

  lemma EndingKeeps(x: Input, cfg: Config, i: nat, rest: seq<Edit>)
    requires Ready(x) && i < |x.lines| && Ascending(rest, x.lines[i].full.end, |x.source|)
    ensures var v, l, ending := x.source, x.lines[i], EndingFor(x, cfg, i);
      var second := if !l.kind.NoEnding? && EndingText(l.kind) != ending then [Edit(l.ending, ending)] else [];
      && l.content.end <= l.full.end <= |v| && Ascending(second + rest, l.content.end, |v|)
      && Rebuilt(v, second + rest, l.content.end) == ending + Rebuilt(v, rest, l.full.end)
  {
    hide Ready, Ascending, Rebuilt, LastReal;
    LineFacts(x, i);
    var v, l, ending := x.source, x.lines[i], EndingFor(x, cfg, i);
    if !l.kind.NoEnding? && EndingText(l.kind) != ending {
      PrependEdit(v, Edit(l.ending, ending), rest, l.content.end);
      assert v[l.content.end..l.content.end] == "";
    } else {
      RebuiltLater(v, rest, l.content.end, l.full.end);
      assert [] + rest == rest;
    }
  }

  /** The edits go from left to right, and applying them gives the lines one by one. */
  lemma {:induction false} EditsBuildLines(x: Input, cfg: Config, i: nat, blank: nat)
    requires Ready(x) && i <= |x.lines|
    ensures LineStart(x, i) <= |x.source| && Ascending(EditsFrom(x, cfg, i, blank), LineStart(x, i), |x.source|)
    ensures Rebuilt(x.source, EditsFrom(x, cfg, i, blank), LineStart(x, i)) == TextFrom(x, cfg, i, blank)
    decreases |x.lines| - i
  {
    hide Ready, Ascending, Rebuilt, LineEdits, FormattedLine, NextBlank, AddsNewline;
    if i == |x.lines| {
      FinalKeeps(x, cfg);
    } else {
      LineFacts(x, i);
      var next := NextBlank(x, i, blank);
      EditsBuildLines(x, cfg, i + 1, next);
      LineKeeps(x, cfg, i, blank, EditsFrom(x, cfg, i + 1, next));
    }
  }

  lemma FinalKeeps(x: Input, cfg: Config)
    ensures Ascending(FinalEdit(x, cfg), |x.source|, |x.source|)
    ensures Rebuilt(x.source, FinalEdit(x, cfg), |x.source|) == if AddsNewline(x, cfg) then
      NewlineText(cfg.newline) else ""
  {
    hide AddsNewline;
    if AddsNewline(x, cfg) {
      var e := Edit(Range(|x.source|, |x.source|), NewlineText(cfg.newline));
      assert [e][1..] == [];
    }
  }

  function Formatted(x: Input, cfg: Config): Text { TextFrom(x, cfg, 0, 0) }

  lemma FirstLine(x: Input)
    requires Ready(x)
    ensures |x.lines| > 0 && LineStart(x, 0) == 0
  {
  }

  /** The edits of one pass over the lines. */
  method CollectEdits(x: Input, cfg: Config) returns (edits: seq<Edit>)
    ensures edits == EditsFrom(x, cfg, 0, 0)
  {
    hide Shielded, Structural, LastReal, BeforeAttribute, LineEdits, NextBlank, FinalEdit;
    edits := [];
    var blank: nat := 0;
    for i := 0 to |x.lines|
      invariant EditsFrom(x, cfg, 0, 0) == edits + EditsFrom(x, cfg, i, blank)
    {
      var mine, next := FormatLine(x, cfg, i, blank);
      EditsStep(x, cfg, i, blank, edits);
      edits := edits + mine;
      blank := next;
    }
    var final := FinalEdit(x, cfg);
    edits := edits + final;
  }

  lemma EditsStep(x: Input, cfg: Config, i: nat, blank: nat, done: seq<Edit>)
    requires i < |x.lines|
    ensures done + EditsFrom(x, cfg, i, blank)
      == done + LineEdits(x, cfg, i, blank) + EditsFrom(x, cfg, i + 1, NextBlank(x, i, blank))
  {
    hide LineEdits, NextBlank;
    var rest := EditsFrom(x, cfg, i + 1, NextBlank(x, i, blank));
    assert done + (LineEdits(x, cfg, i, blank) + rest) == done + LineEdits(x, cfg, i, blank) + rest;
  }

  /** One line: counts blank lines, and edits what is not protected. */
  method FormatLine(x: Input, cfg: Config, i: nat, blank: nat) returns (edits: seq<Edit>, next: nat)
    requires i < |x.lines|
    ensures edits == LineEdits(x, cfg, i, blank) && next == NextBlank(x, i, blank)
  {
    hide Structural, LastReal, BeforeAttribute;
    edits := [];
    if Shielded(x, i) {
      return [], 0;
    }
    var l, content := x.lines[i], ContentOf(x, i);
    var virtualFinal := Empty(l) && l.kind.NoEnding?;
    next := 0;
    if G.AllBlank(content) && !virtualFinal {
      next := blank + 1;
      var required := FindAttribute(x, i + 1);
      if cfg.maxBlank < next && !required {
        return [Edit(l.full, "")], next;
      }
    }
    var kept := KeptEnd(content);
    if kept < |content| && l.content.start + kept <= l.content.end {
      edits := edits + [Edit(Range(l.content.start + kept, l.content.end), "")];
    }
    if !l.kind.NoEnding? {
      var replacement := if Some(i) == LastReal(x, |x.lines|) && !cfg.finalNewline then ""
        else NewlineText(cfg.newline);
      if EndingText(l.kind) != replacement {
        edits := edits + [Edit(l.ending, replacement)];
      }
    }
  }

  method FindAttribute(x: Input, start: nat) returns (r: bool)
    requires start <= |x.lines|
    ensures r == BeforeAttribute(x, start)
  {
    hide ContentOf, G.Starts;
    var i := start;
    while i < |x.lines|
      invariant start <= i <= |x.lines| && BeforeAttribute(x, start) == BeforeAttribute(x, i)
    {
      if !G.Starts(ContentOf(x, i), "//") {
        return x.lines[i].full.start in x.attributeStarts;
      }
      i := i + 1;
    }
    r := false;
  }

  /** Formats a text. Its edits are always accepted as a fix, in the order in which they were
      made; applying them backwards gives the text built line by line. */
  method Format(x: Input, cfg: Config) returns (formatted: Text, edits: seq<Edit>)
    requires Ready(x)
    ensures edits == EditsFrom(x, cfg, 0, 0) && FixOf(edits) == Some(edits)
    ensures formatted == Formatted(x, cfg)
  {
    hide Ready, EditsFrom, TextFrom, FixOf, Ascending, Rebuilt;
    var collected := CollectEdits(x, cfg);
    FirstLine(x);
    EditsBuildLines(x, cfg, 0, 0);
    AscendingIsFix(collected, 0, |x.source|);
    var fix := NewFix(collected);
    edits := fix.value;
    formatted := ApplyEdits(x.source, edits);
  }

  // ---------------------------------------------------------------- protected ranges

  lemma LineEditsInside(x: Input, cfg: Config, i: nat, blank: nat)
    requires Ready(x) && i < |x.lines|
    ensures forall e :: e in LineEdits(x, cfg, i, blank) ==>
      !Shielded(x, i) && x.lines[i].full.start <= e.range.start && e.range.end <= x.lines[i].full.end
  {
    hide Ready, Shielded, Removed, KeptEnd, EndingFor;
    LineFacts(x, i);
  }

  lemma {:induction false} ProtectedIsClear(x: Input, cfg: Config, i: nat, blank: nat, r: TextRange)
    requires Ready(x) && i <= |x.lines| && r in x.protected && r.end <= |x.source|
    ensures Clear(EditsFrom(x, cfg, i, blank), r)
    decreases |x.lines| - i
  {
    hide Ready, LineEdits, NextBlank, FormattedLine, Shielded;
    if i < |x.lines| {
      LineEditsInside(x, cfg, i, blank);
      ProtectedIsClear(x, cfg, i + 1, NextBlank(x, i, blank), r);
      if !Shielded(x, i) {
        NoOverlap(x, i, r);
      }
      assert forall e :: e in EditsFrom(x, cfg, i, blank) <==>
        e in LineEdits(x, cfg, i, blank) || e in EditsFrom(x, cfg, i + 1, NextBlank(x, i, blank));
    }
  }

  lemma NoOverlap(x: Input, i: nat, r: TextRange)
    requires i < |x.lines| && r in x.protected && !Shielded(x, i)
    ensures x.lines[i].full.end <= r.start || r.end <= x.lines[i].full.start
  {
  }

  /** The bytes of every protected range are in the formatted text, moved by the net length of
      the edits before them. */
  lemma ProtectedSurvives(x: Input, cfg: Config, r: TextRange)
    requires Ready(x) && r in x.protected && r.start < r.end <= |x.source|
    ensures var at := r.start + Shift(EditsFrom(x, cfg, 0, 0), r.start);
      0 <= at && at + (r.end - r.start) <= |Formatted(x, cfg)|
        && Formatted(x, cfg)[at..at + (r.end - r.start)] == x.source[r.start..r.end]
  {
    hide Ready, EditsFrom, TextFrom, Ascending, Rebuilt, Clear;
    FirstLine(x);
    EditsBuildLines(x, cfg, 0, 0);
    ProtectedIsClear(x, cfg, 0, 0, r);
    ClearSurvives(x.source, EditsFrom(x, cfg, 0, 0), 0, r);
  }
}
