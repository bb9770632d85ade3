/** Formatting leaves a line the delimiter, attribute list, anchor or text that it was. */
module LineForms {
  import opened Text
  import opened Source
  import opened Formatter
  import opened FormatterFixpoint
  import opened JoinedLines
  import G = BlockGrammar
  import T = SettledTexts

  /** Two lines are the same delimiter, or both an attribute list, or both an anchor, or neither. */
  predicate SameForms(a: Text, b: Text) {
    && G.DelimiterOf(a) == G.DelimiterOf(b)
    && (G.BlockAttributes(a) <==> G.BlockAttributes(b))
    && (G.AnchorLine(a) <==> G.AnchorLine(b))
  }

  predicate HasForm(c: Text) { G.DelimiterOf(c).Some? || G.BlockAttributes(c) || G.AnchorLine(c) }

  /** `t` is `c` without the blanks it ends in. */
  predicate TrimOf(t: Text, c: Text) {
    t <= c && (t == [] || !Blank(t[|t| - 1])) && forall i :: |t| <= i < |c| ==> Blank(c[i])
  }

  lemma TrimUnique(t: Text, c: Text)
    requires TrimOf(t, c)
    ensures t == c[..G.TrimmedEnd(c)]
  {
    var n := G.TrimmedEnd(c);
    assert n > 0 ==> !Blank(c[n - 1]);
    assert t != [] ==> t[|t| - 1] == c[|t| - 1];
  }

  /** No line that ends in a blank has one of the forms. */
  lemma BlankEndHasNoForm(c: Text)
    requires c != [] && Blank(c[|c| - 1])
    ensures !HasForm(c)
  {
    hide G.Run;
    G.LastOf(c, "===");
    G.LastOf(c, "]]");
    NoRun(c, '/');
    NoRun(c, '=');
    NoRun(c, '-');
    NoRun(c, '.');
    NoRun(c, '*');
    NoRun(c, '+');
    NoRun(c, '_');
  }

  lemma NoRun(c: Text, ch: char)
    requires c != [] && c[|c| - 1] != ch
    ensures !G.Repeated(c, ch)
  {
  }

  /** What is kept of a line is the line without its trailing blanks, unless the blanks keep it from
      being a delimiter, an attribute list or an anchor: then all of it. */
  lemma KeptIff(c: Text, t: Text)
    requires TrimOf(t, c)
    ensures c[..KeptEnd(c)] == if t != c && HasForm(t) then c else t
  {
    hide G.DelimiterOf, G.BlockAttributes, G.AnchorLine;
    TrimUnique(t, c);
    assert c[..|c|] == c;
  }

  /** Either way the kept line has the form that the line had. */
  lemma KeptForms(c: Text)
    ensures SameForms(c[..KeptEnd(c)], c)
  {
    hide G.DelimiterOf, G.BlockAttributes, G.AnchorLine;
    var t := c[..G.TrimmedEnd(c)];
    assert TrimOf(t, c);
    KeptIff(c, t);
    if t != c && !HasForm(t) {
      assert Blank(c[|c| - 1]);
      BlankEndHasNoForm(c);
    }
  }

  // ---------------------------------------------------------------- the output of a line

  /** How many blank lines have been counted in front of a line. */
  function Blanks(x: Input, i: nat): nat
    requires i <= |x.lines|
  {
    if i == 0 then 0 else NextBlank(x, i - 1, Blanks(x, i - 1))
  }

  /** The output in front of a line. */
  function Before(x: Input, cfg: Config, i: nat): Text
    requires i <= |x.lines|
  {
    if i == 0 then "" else Before(x, cfg, i - 1) + FormattedLine(x, cfg, i - 1, Blanks(x, i - 1))
  }

  lemma {:induction false} OutputSplits(x: Input, cfg: Config, i: nat)
    requires i <= |x.lines|
    ensures Formatted(x, cfg) == Before(x, cfg, i) + TextFrom(x, cfg, i, Blanks(x, i))
  {
    hide FormattedLine, NextBlank, AddsNewline;
    if i == 0 {
      assert "" + TextFrom(x, cfg, 0, 0) == TextFrom(x, cfg, 0, 0);
    } else {
      OutputSplits(x, cfg, i - 1);
      var before, line := Before(x, cfg, i - 1), FormattedLine(x, cfg, i - 1, Blanks(x, i - 1));
      var rest := TextFrom(x, cfg, i, Blanks(x, i));
      assert before + (line + rest) == before + line + rest;
    }
  }

  /** A line that stays and is more than the empty rest after the last newline. */
  predicate Stays(x: Input, cfg: Config, i: nat)
    requires i < |x.lines|
  {
    !Shielded(x, i) && !Virtual(x, i) && !Removed(x, cfg, i, Blanks(x, i))
  }

  /** Everything in front of such a line ends in a line feed. */
  lemma {:induction false} BeforeEnds(x: Input, cfg: Config, i: nat, at: nat)
    requires Ready(x) && i <= at < |x.lines| && !Virtual(x, at)
    ensures Before(x, cfg, i) == "" || EndsInNewline(Before(x, cfg, i))
    decreases i
  {
    hide Ready, FormattedLine, Blanks, Virtual;
    if i > 0 {
      BeforeEnds(x, cfg, i - 1, at);
      var line := FormattedLine(x, cfg, i - 1, Blanks(x, i - 1));
      LineEnds(x, cfg, i - 1, at, Blanks(x, i - 1));
      assert line == "" ==> Before(x, cfg, i - 1) + line == Before(x, cfg, i - 1);
    }
  }

  lemma LineEnds(x: Input, cfg: Config, i: nat, at: nat, blank: nat)
    requires Ready(x) && i < at < |x.lines| && !Virtual(x, at)
    ensures FormattedLine(x, cfg, i, blank) == "" || EndsInNewline(FormattedLine(x, cfg, i, blank))
  {
    hide Ready, Shielded, Removed, KeptEnd, LastReal, ContentOf, Virtual, BeforeAttribute;
    HasEnding(x, i);
    AfterLastReal(x, i);
  }

  /** What follows the kept text of a line: its newline, or nothing and then perhaps the final one. */
  lemma RestOfLine(x: Input, cfg: Config, i: nat)
    requires Ready(x) && i < |x.lines| && Stays(x, cfg, i)
    ensures var rest := EndingFor(x, cfg, i) + TextFrom(x, cfg, i + 1, Blanks(x, i + 1));
      && TextFrom(x, cfg, i, Blanks(x, i)) == KeptText(x, i) + rest
      && (if Closed(x, cfg, i) then NewlineText(cfg.newline) <= rest else rest == "")
  {
    hide Ready, Shielded, Removed, KeptEnd, LastReal, ContentOf, BeforeAttribute;
    HasEnding(x, i);
    AfterLastReal(x, i);
    var k, e, after := KeptText(x, i), EndingFor(x, cfg, i), TextFrom(x, cfg, i + 1, Blanks(x, i + 1));
    assert k + e + after == k + (e + after);
    if e == "" {
      LastRest(x, cfg, i);
    } else {
      assert NewlineText(cfg.newline) <= e + after;
    }
  }

  lemma LastRest(x: Input, cfg: Config, i: nat)
    requires Ready(x) && i < |x.lines| && Stays(x, cfg, i) && EndingFor(x, cfg, i) == ""
    ensures TextFrom(x, cfg, i + 1, Blanks(x, i + 1)) == if Closed(x, cfg, i) then NewlineText(cfg.newline) else ""
  {
    hide Ready, Shielded, Removed, KeptEnd, LastReal, ContentOf, BeforeAttribute, AddsNewline, FormattedLine, Virtual,
      NextBlank;
    HasEnding(x, i);
    AfterLastReal(x, i);
    if i + 1 < |x.lines| {
      VirtualText(x, cfg, i + 1, Blanks(x, i + 1));
    }
    FinalIs(x, cfg, i);
  }

  /** The final newline comes behind an unterminated last line, when one is wanted. */
  lemma FinalIs(x: Input, cfg: Config, i: nat)
    requires Ready(x) && i < |x.lines| && Stays(x, cfg, i) && EndingFor(x, cfg, i) == ""
    ensures AddsNewline(x, cfg) <==> Closed(x, cfg, i)
  {
    hide Ready, Shielded, Removed, KeptEnd, ContentOf, LastReal, EndsInNewline;
    HasEnding(x, i);
    AfterLastReal(x, i);
    LastNewline(x);
  }

  lemma VirtualText(x: Input, cfg: Config, i: nat, blank: nat)
    requires Ready(x) && i < |x.lines| && Virtual(x, i)
    ensures FormattedLine(x, cfg, i, blank) == ""
  {
    hide Ready, Shielded, Removed, KeptEnd, LastReal, ContentOf;
    VirtualIsNothing(x, i);
  }

  // ---------------------------------------------------------------- the line in the output

  /** A place after a line feed is where a line starts. */
  lemma {:induction false} LineStartsThere(v: Text, lines: seq<Line>, from: nat, at: nat) returns (j: nat)
    requires LinesOk(v, lines, from) && from <= at <= |v| && (at == from || v[at - 1] == '\n')
    ensures j < |lines| && lines[j].full.start == at && LineOk(v, lines[j])
    decreases |lines|
  {
    if at == from {
      j := 0;
    } else {
      LineFeedEnds(v, lines[0], at);
      j := LineStartsThere(v, lines[1..], lines[0].full.end, at);
      j := j + 1;
    }
  }

  lemma LineFeedEnds(v: Text, l: Line, at: nat)
    requires LineOk(v, l) && l.full.start < at <= |v| && v[at - 1] == '\n'
    ensures !l.kind.NoEnding? && l.full.end <= at
  {
    assert !EndingAt(v, at - 1).NoEnding?;
  }

  /** A line of the output is a kept text; only a carriage return at its end goes with a line feed
      behind it. */
  function LineText(k: Text, n: Newline, closed: bool): Text {
    if JoinsReturn(k, n, closed) then k[..|k| - 1] else k
  }

  predicate JoinsReturn(k: Text, n: Newline, closed: bool) { n.LfStyle? && closed && EndsInReturn(k) }

  function LineKind(k: Text, n: Newline, closed: bool): LineEnding {
    if !closed then NoEnding else if JoinsReturn(k, n, closed) then CrLf else NewlineKind(n)
  }

  lemma LineIs(v: Text, l: Line, at: nat, k: Text, n: Newline, closed: bool, rest: Text)
    requires LineOk(v, l) && l.full.start == at <= |v| && v[at..] == k + rest && '\n' !in k
    requires if closed then NewlineText(n) <= rest else rest == ""
    ensures l.content.end <= |v| && v[l.content.start..l.content.end] == LineText(k, n, closed)
    ensures l.kind == LineKind(k, n, closed)
  {
    var end, stop := at + |k|, at + |LineText(k, n, closed)|;
    assert |v| == end + |rest|;
    assert forall q :: at <= q < |v| ==> v[q] == (k + rest)[q - at];
    assert forall q :: at <= q < end ==> v[q] == k[q - at] && v[q] in k;
    if closed {
      assert v[end] == rest[0] == NewlineText(n)[0];
      assert n.CrLfStyle? ==> v[end + 1] == rest[1] == NewlineText(n)[1];
      assert EndingAt(v, stop) == LineKind(k, n, closed);
    }
    forall q | at <= q < stop ensures EndingAt(v, q).NoEnding? {
      assert q + 1 < end ==> v[q + 1] in k;
    }
    EndsThere(v, l, stop);
    SliceOfText(v, at, k, rest, |LineText(k, n, closed)|);
  }

  lemma EndsThere(v: Text, l: Line, stop: nat)
    requires LineOk(v, l) && l.full.start <= stop <= |v| && forall q :: l.full.start <= q < stop ==>
      EndingAt(v, q).NoEnding?
    requires stop < |v| ==> !EndingAt(v, stop).NoEnding?
    ensures l.content.end == stop && l.kind == if stop < |v| then EndingAt(v, stop) else NoEnding
  {
    hide EndingAt;
  }

  lemma SliceOfText(v: Text, at: nat, k: Text, rest: Text, n: nat)
    requires at <= |v| && v[at..] == k + rest && n <= |k|
    ensures at + n <= |v| && v[at..at + n] == k[..n]
  {
    SliceOfSlice(v, at, |v|, 0, n);
    assert (k + rest)[0..n] == k[..n];
  }

  lemma {:induction false} TextIsValid(x: Input, cfg: Config, i: nat, blank: nat)
    requires Ready(x) && i <= |x.lines|
    ensures Valid(TextFrom(x, cfg, i, blank))
    decreases |x.lines| - i
  {
    hide Ready, FormattedLine, Valid, AddsNewline, NextBlank;
    NewlineIsValid(cfg.newline);
    KeptIsClean("");
    if i < |x.lines| {
      LineIsValid(x, cfg, i, blank);
      TextIsValid(x, cfg, i + 1, NextBlank(x, i, blank));
      ValidAppend(FormattedLine(x, cfg, i, blank), TextFrom(x, cfg, i + 1, NextBlank(x, i, blank)));
    }
  }

  lemma LineIsValid(x: Input, cfg: Config, i: nat, blank: nat)
    requires Ready(x) && i < |x.lines|
    ensures Valid(FormattedLine(x, cfg, i, blank))
  {
    hide Ready, Valid, Shielded, Removed, KeptEnd, LastReal, ContentOf;
    var c := ContentOf(x, i);
    ContentIsLine(x, i);
    KeptIsClean(c);
    KeptIsClean("");
    NewlineIsValid(LfStyle);
    NewlineIsValid(CrLfStyle);
    ValidAppend(c, EndingText(x.lines[i].kind));
    ValidAppend(c[..KeptEnd(c)], EndingFor(x, cfg, i));
  }

  // ---------------------------------------------------------------- the theorem

  /** Each line that stays is a line of the formatted text again, without the blanks that may go and
      with the newline that is wanted. */
  lemma LineComesOut(x: Input, cfg: Config, i: nat) returns (j: nat)
    requires Ready(x) && i < |x.lines| && Stays(x, cfg, i)
    ensures var w, at, k, closed := Formatted(x, cfg), |Before(x, cfg, i)|, KeptText(x, i), Closed(x, cfg, i);
      && j < |Lines(w)| && Lines(w)[j].full.start == at
      && ContentOf(Plain(w), j) == LineText(k, cfg.newline, closed)
      && Lines(w)[j].kind == LineKind(k, cfg.newline, closed)
  {
    hide Ready, Stays, Lines, FormattedLine, TextFrom, Before, KeptText, EndingFor, Valid, Closed, LineText, LineKind;
    var w, before := Formatted(x, cfg), Before(x, cfg, i);
    var k, rest := KeptText(x, i), EndingFor(x, cfg, i) + TextFrom(x, cfg, i + 1, Blanks(x, i + 1));
    OutputSplits(x, cfg, i);
    StaysIsReal(x, cfg, i);
    BeforeEnds(x, cfg, i, i);
    RestOfLine(x, cfg, i);
    TextIsValid(x, cfg, 0, 0);
    assert w == before + (k + rest) && w[|before|..] == k + rest;
    assert before != "" ==> w[|before| - 1] == before[|before| - 1];
    PlainReady(w);
    j := LineStartsThere(w, Lines(w), 0, |before|);
    KeptIsLine(x, i);
    LineIs(w, Lines(w)[j], |before|, k, cfg.newline, Closed(x, cfg, i), rest);
    LineFacts(Plain(w), j);
  }

  lemma StaysIsReal(x: Input, cfg: Config, i: nat)
    requires i < |x.lines| && Stays(x, cfg, i)
    ensures !Virtual(x, i)
  {
  }

  lemma KeptIsLine(x: Input, i: nat)
    requires Ready(x) && i < |x.lines|
    ensures '\n' !in KeptText(x, i)
  {
    hide Ready, ContentOf, KeptEnd;
    ContentIsLine(x, i);
  }

  /** The line that comes out has the form of the line that went in, unless a carriage return at its
      end joins the newline and what is left has a form. */
  lemma FormComesOut(x: Input, cfg: Config, i: nat) returns (j: nat)
    requires Ready(x) && i < |x.lines| && Stays(x, cfg, i)
    ensures var w, k, closed := Formatted(x, cfg), KeptText(x, i), Closed(x, cfg, i);
      && j < |Lines(w)| && Lines(w)[j].full.start == |Before(x, cfg, i)|
      && (SameForms(ContentOf(Plain(w), j), ContentOf(x, i)) <==>
            !(JoinsReturn(k, cfg.newline, closed) && HasForm(k[..|k| - 1])))
  {
    hide Ready, Stays, Lines, FormattedLine, TextFrom, Before, ContentOf, EndingFor, Valid, KeptEnd, G.DelimiterOf,
      G.BlockAttributes, G.AnchorLine, Closed;
    var k := KeptText(x, i);
    j := LineComesOut(x, cfg, i);
    KeptForms(ContentOf(x, i));
    if EndsInReturn(k) {
      ReturnHasNoForm(k);
    }
  }

  lemma ReturnHasNoForm(k: Text)
    requires EndsInReturn(k)
    ensures !HasForm(k)
  {
    hide G.DelimiterOf, G.BlockAttributes, G.AnchorLine;
    if HasForm(k) {
      T.StructuralEnd(k);
    }
  }

  // ---------------------------------------------------------------- blank lines

  /** As many lines in front of a line are blank and unprotected. */
  predicate BlanksInFront(x: Input, i: nat, m: nat)
    requires i <= |x.lines|
  {
    m <= i && forall j :: i - m <= j < i ==> BlankLine(x, j) && !Shielded(x, j)
  }

  lemma {:induction false} BlanksAre(x: Input, i: nat, m: nat)
    requires i <= |x.lines|
    ensures m <= Blanks(x, i) <==> BlanksInFront(x, i, m)
    decreases i
  {
    hide BlankLine, Shielded;
    if i > 0 && m > 0 {
      BlanksAre(x, i - 1, m - 1);
      if BlanksInFront(x, i - 1, m - 1) && BlankLine(x, i - 1) && !Shielded(x, i - 1) {
        assert BlanksInFront(x, i, m);
      }
    }
  }

  /** A line goes exactly when it is blank and not protected, the limit of blank lines stands in front
      of it, and no attribute comes after it. */
  lemma GoesIff(x: Input, cfg: Config, i: nat)
    requires i < |x.lines|
    ensures Removed(x, cfg, i, Blanks(x, i)) <==>
      BlankLine(x, i) && !Shielded(x, i) && BlanksInFront(x, i, cfg.maxBlank) && !BeforeAttribute(x, i + 1)
  {
    hide BlankLine, Shielded, BeforeAttribute, BlanksInFront, Blanks;
    BlanksAre(x, i, cfg.maxBlank);
  }
}
