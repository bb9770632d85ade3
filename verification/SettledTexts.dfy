/** Which texts the formatter settles in one pass, read off their lines. */
module SettledTexts {
  import opened Text
  import opened Source
  import opened Formatter
  import opened JoinedLines
  import opened FormatterFixpoint
  import D = Edits
  import G = BlockGrammar

  /** How many blank lines directly precede a line. */
  function BlanksBefore(x: Input, i: nat): nat
    requires i <= |x.lines|
  {
    if i == 0 || !BlankLine(x, i - 1) then 0 else BlanksBefore(x, i - 1) + 1
  }

  /** The text ends in a blank line without an ending, behind as many blank lines as are allowed. */
  predicate BlankTail(x: Input, limit: nat) {
    |x.lines| > 0 &&
    var n := |x.lines| - 1;
    !Empty(x.lines[n]) && G.AllBlank(ContentOf(x, n)) && limit <= BlanksBefore(x, n)
  }

  /** The last line that holds anything is blank, and some line before it stays. */
  predicate BlankAfterOther(x: Input, limit: nat) {
    var last := LastReal(x, |x.lines|);
    && last.Some? && G.AllBlank(ContentOf(x, last.value)) && 0 < last.value
    && (0 < limit || exists i :: 0 <= i < last.value && !G.AllBlank(ContentOf(x, i)))
  }

  /** Trimmed of blanks, the line ends in a carriage return. */
  predicate ReturnLine(x: Input, i: nat)
    requires i < |x.lines|
  {
    var c := ContentOf(x, i);
    EndsInReturn(c[..G.TrimmedEnd(c)])
  }

  /** A line that comes out with an ending ends in a carriage return of its own. */
  predicate ReturnKept(x: Input, cfg: Config) {
    exists i :: 0 <= i < |x.lines| && Closed(x, cfg, i) && ReturnLine(x, i)
  }

  predicate Unsettled(x: Input, cfg: Config) {
    || (cfg.finalNewline && BlankTail(x, cfg.maxBlank))
    || (!cfg.finalNewline && BlankAfterOther(x, cfg.maxBlank))
    || (cfg.newline.LfStyle? && ReturnKept(x, cfg))
  }

  // ---------------------------------------------------------------- blank runs

  lemma NextBlankIs(v: Text, i: nat)
    requires Valid(v) && i < |Lines(v)|
    ensures NextBlank(Plain(v), i, BlanksBefore(Plain(v), i)) == BlanksBefore(Plain(v), i + 1)
    ensures forall cfg: Config, blank: nat {:trigger Removed(Plain(v), cfg, i, blank)} ::
      Removed(Plain(v), cfg, i, blank) <==> BlankLine(Plain(v), i) && cfg.maxBlank < blank + 1
  {
    hide Lines, BlankLine, Shielded, BeforeAttribute;
    PlainLine(v, i);
  }

  lemma {:induction false} TailIs(v: Text, cfg: Config, i: nat)
    requires Valid(v) && i < |Lines(v)|
    ensures TailRemoved(Plain(v), cfg, i, BlanksBefore(Plain(v), i)) <==> BlankTail(Plain(v), cfg.maxBlank)
    decreases |Lines(v)| - i
  {
    hide Lines, ContentOf, Shielded, BeforeAttribute, G.AllBlank, Removed;
    var x := Plain(v);
    NextBlankIs(v, i);
    TailStep(x, cfg, i, BlanksBefore(x, i));
    if i + 1 < |x.lines| {
      TailIs(v, cfg, i + 1);
    }
  }

  // ---------------------------------------------------------------- carriage returns

  lemma {:induction false} OneCharacter(c: Text, ch: char)
    requires G.Run(c, ch) == |c|
    ensures forall j :: 0 <= j < |c| ==> c[j] == ch
    decreases |c|
  {
    if c != [] {
      OneCharacter(c[1..], ch);
      assert forall j :: 0 < j < |c| ==> c[j] == c[1..][j - 1];
    }
  }

  lemma RepeatedEnd(c: Text, ch: char)
    requires ch != '\r'
    ensures G.Repeated(c, ch) ==> !EndsInReturn(c)
  {
    hide G.Run;
    if G.Repeated(c, ch) {
      OneCharacter(c, ch);
    }
  }

  lemma NoReturnAfter(c: Text, p: string)
    requires p != [] && G.Ends(c, p) && p[|p| - 1] != '\r'
    ensures !EndsInReturn(c)
  {
    assert c[|c| - |p|..][|p| - 1] == c[|c| - 1];
  }

  /** No delimiter, attribute list or anchor ends in a carriage return. */
  lemma StructuralEnd(t: Text)
    requires G.DelimiterOf(t).Some? || G.BlockAttributes(t) || G.AnchorLine(t)
    ensures !EndsInReturn(t)
  {
    hide G.Repeated;
    if G.TableDelimiter(t) {
      NoReturnAfter(t, "===");
    } else if G.AnchorLine(t) {
      NoReturnAfter(t, "]]");
    }
    RepeatedEnd(t, '/');
    RepeatedEnd(t, '=');
    RepeatedEnd(t, '-');
    RepeatedEnd(t, '.');
    RepeatedEnd(t, '*');
    RepeatedEnd(t, '+');
    RepeatedEnd(t, '_');
  }

  lemma KeptReturn(x: Input, i: nat)
    requires i < |x.lines|
    ensures EndsInReturn(KeptText(x, i)) <==> ReturnLine(x, i)
    ensures ReturnLine(x, i) ==> !G.AllBlank(ContentOf(x, i))
  {
    hide ContentOf, G.DelimiterOf, G.BlockAttributes, G.AnchorLine;
    var c := ContentOf(x, i);
    var t := c[..G.TrimmedEnd(c)];
    if Structural(c) {
      StructuralEnd(t);
      assert c[..|c|] == c;
      assert G.TrimmedEnd(c) < |c| && Blank(c[|c| - 1]);
    }
    if EndsInReturn(t) {
      assert t[|t| - 1] == c[|t| - 1];
    }
  }

  /** From a line on, an output line ends in a carriage return exactly when a closed line does. */
  lemma {:induction false} ReturnsAre(x: Input, cfg: Config, i: nat, blank: nat)
    requires i <= |x.lines|
    ensures !NoReturns(Ended(x, cfg, i, blank)) <==>
      exists j :: i <= j < |x.lines| && Closed(x, cfg, j) && ReturnLine(x, j)
    decreases |x.lines| - i
  {
    hide ContentOf, KeptText, ReturnLine, Closed, Shielded, BeforeAttribute, G.AllBlank, NextBlank, NoReturns;
    NoneReturns();
    if i < |x.lines| {
      var next := NextBlank(x, i, blank);
      ReturnsAre(x, cfg, i + 1, next);
      KeptReturn(x, i);
      ReturnsJoin(EndedLine(x, cfg, i, blank), Ended(x, cfg, i + 1, next));
      OneReturn(KeptText(x, i));
      OneReturn("");
    }
  }

  lemma NoneReturns()
    ensures NoReturns([])
  {
  }

  lemma OneReturn(k: Text)
    ensures NoReturns([k]) <==> !EndsInReturn(k)
  {
    assert [k][0] == k;
  }

  lemma ReturnsJoin(a: seq<Text>, b: seq<Text>)
    ensures NoReturns(a + b) <==> NoReturns(a) && NoReturns(b)
  {
    assert forall i :: 0 <= i < |a| ==> (a + b)[i] == a[i];
    assert forall i :: 0 <= i < |b| ==> (a + b)[|a| + i] == b[i];
  }

  // ---------------------------------------------------------------- an ending too many

  /** A line that comes out with an ending. */
  predicate Stays(x: Input, cfg: Config, i: nat)
    requires i < |x.lines|
  {
    EndedLine(x, cfg, i, BlanksBefore(x, i)) != []
  }

  lemma {:induction false} EndedAre(v: Text, cfg: Config, i: nat)
    requires Valid(v) && i <= |Lines(v)|
    ensures Ended(Plain(v), cfg, i, BlanksBefore(Plain(v), i)) != [] <==>
      exists j :: i <= j < |Lines(v)| && Stays(Plain(v), cfg, j)
    decreases |Lines(v)| - i
  {
    hide Lines, EndedLine, NextBlank, BlanksBefore;
    if i < |Lines(v)| {
      var x := Plain(v);
      NextBlankIs(v, i);
      EndedAre(v, cfg, i + 1);
      assert Stays(x, cfg, i) <==> EndedLine(x, cfg, i, BlanksBefore(x, i)) != [];
      assert Ended(x, cfg, i, BlanksBefore(x, i))
        == EndedLine(x, cfg, i, BlanksBefore(x, i)) + Ended(x, cfg, i + 1, BlanksBefore(x, i + 1));
      if exists j :: i <= j < |Lines(v)| && Stays(x, cfg, j) {
        var j :| i <= j < |Lines(v)| && Stays(x, cfg, j);
        assert j == i || i + 1 <= j;
      }
    }
  }

  /** Without a final newline the lines before the last that holds anything stay, unless they are
      blank and over the limit. */
  lemma StaysIff(v: Text, cfg: Config, i: nat)
    requires Valid(v) && !cfg.finalNewline && i < |Lines(v)|
    ensures var x := Plain(v); var last := LastReal(x, |x.lines|);
      Stays(x, cfg, i) <==>
        last.Some? && i < last.value && !(G.AllBlank(ContentOf(x, i)) && cfg.maxBlank < BlanksBefore(x, i) + 1)
  {
    hide Lines, LastReal, ContentOf, Shielded, BeforeAttribute, G.AllBlank, Removed, BlanksBefore;
    var x := Plain(v);
    PlainReady(v);
    NextBlankIs(v, i);
    HasEnding(x, i);
    AfterLastReal(x, i);
    LastIsLast(v, i);
  }

  lemma LastIsLast(v: Text, i: nat)
    requires Valid(v) && i < |Lines(v)|
    ensures var x := Plain(v); var last := LastReal(x, |x.lines|);
      !Virtual(x, i) ==> last.Some? && i <= last.value
  {
    hide Lines, LastReal;
    var x := Plain(v);
    PlainReady(v);
    HasEnding(x, i);
    if !Virtual(x, i) {
      LastFrom(x, |x.lines|, i);
    }
  }

  lemma {:induction false} LastFrom(x: Input, n: nat, i: nat)
    requires i < n <= |x.lines| && !Empty(x.lines[i])
    ensures LastReal(x, n).Some? && i <= LastReal(x, n).value
    decreases n
  {
    if i + 1 < n {
      LastFrom(x, n - 1, i);
    }
  }

  lemma {:induction false} BareIs(v: Text, cfg: Config, i: nat)
    requires Valid(v) && !cfg.finalNewline && i <= |Lines(v)|
    ensures var x := Plain(v); var last := LastReal(x, |x.lines|);
      Bare(x, cfg, i, BlanksBefore(x, i)) ==
        if last.Some? && i <= last.value && !Removed(x, cfg, last.value, BlanksBefore(x, last.value)) then
          KeptText(x, last.value) else ""
    decreases |Lines(v)| - i
  {
    hide Lines, LastReal, ContentOf, KeptText, Removed, BlanksBefore, NextBlank;
    var x := Plain(v);
    if i < |x.lines| {
      PlainReady(v);
      NextBlankIs(v, i);
      AfterLastReal(x, i);
      LastIsLast(v, i);
      NotVirtual(x);
      BareIs(v, cfg, i + 1);
    }
  }

  lemma NotVirtual(x: Input)
    ensures var last := LastReal(x, |x.lines|); last.Some? ==> !Virtual(x, last.value)
  {
  }

  lemma KeptNothing(v: Text, i: nat)
    requires Valid(v) && i < |Lines(v)|
    ensures KeptText(Plain(v), i) == "" <==> G.AllBlank(ContentOf(Plain(v), i))
  {
    hide Lines, ContentOf, Structural;
    var x := Plain(v);
    PlainReady(v);
    ContentIsLine(x, i);
    KeptIsClean(ContentOf(x, i));
    BlankIsNothing(KeptText(x, i));
  }

  lemma BareEndingIff(v: Text, cfg: Config)
    requires Valid(v) && !cfg.finalNewline
    ensures var x := Plain(v);
      Ended(x, cfg, 0, 0) != [] && Bare(x, cfg, 0, 0) == "" <==> BlankAfterOther(x, cfg.maxBlank)
  {
    hide Lines, LastReal, ContentOf, KeptText, G.AllBlank, Ended, Bare, Stays, Shielded, BeforeAttribute;
    var x := Plain(v);
    var last := LastReal(x, |x.lines|);
    EndedAre(v, cfg, 0);
    BareIs(v, cfg, 0);
    forall i: nat | i < |x.lines| ensures Stays(x, cfg, i) <==>
      last.Some? && i < last.value && !(G.AllBlank(ContentOf(x, i)) && cfg.maxBlank < BlanksBefore(x, i) + 1)
    {
      StaysIff(v, cfg, i);
    }
    if last.Some? {
      NextBlankIs(v, last.value);
      KeptNothing(v, last.value);
      if 0 < last.value && 0 < cfg.maxBlank {
        assert Stays(x, cfg, 0);
      }
    }
  }

  // ---------------------------------------------------------------- the theorem

  /** The condition on the lines says what the first pass leaves over. */
  lemma UnsettledIff(v: Text, cfg: Config)
    requires Valid(v)
    ensures Unsettled(Plain(v), cfg) <==> Leftover(Plain(v), cfg)
  {
    hide Lines, Ended, Bare, TailRemoved, BlankTail, BlankAfterOther;
    var x := Plain(v);
    PlainReady(v);
    FirstLine(x);
    TailIs(v, cfg, 0);
    ReturnsAre(x, cfg, 0, 0);
    if !cfg.finalNewline {
      BareEndingIff(v, cfg);
    }
  }

  /** For a text without protected ranges and attributes, formatting the formatted text changes
      nothing exactly when the text is not unsettled. */
  lemma FormattedAgain(v: Text, cfg: Config)
    requires Valid(v)
    ensures var x := Plain(v); var w := Formatted(x, cfg);
      Valid(w) && (Formatted(Plain(w), cfg) == w <==> !Unsettled(x, cfg))
  {
    hide Lines, Formatted, Unsettled, Leftover;
    UnsettledIff(v, cfg);
    AgainIff(v, cfg);
  }

  // ---------------------------------------------------------------- whatever the second pass protects

  /** The same text with other protected ranges and attribute starts. */
  function Shielding(w: Text, protected: seq<TextRange>, starts: set<int>): Input {
    Input(w, Lines(w), protected, starts)
  }

  /** A line that is not edited behind some blank lines is not edited behind fewer, however the
      text is protected. */
  lemma FewerLineEdits(w: Text, p: seq<TextRange>, a: set<int>, cfg: Config, i: nat, more: nat, blank: nat)
    requires Valid(w) && i < |Lines(w)| && blank <= more && LineEdits(Plain(w), cfg, i, more) == []
    ensures var y := Shielding(w, p, a);
      LineEdits(y, cfg, i, blank) == [] && NextBlank(y, i, blank) <= NextBlank(Plain(w), i, more)
  {
    hide Lines, BeforeAttribute, Shielded, KeptEnd, G.AllBlank, LastReal;
    PlainLine(w, i);
    SameLastReal(Plain(w), Shielding(w, p, a), |Lines(w)|);
  }

  lemma {:induction false} SameLastReal(x: Input, y: Input, n: nat)
    requires x.lines == y.lines && n <= |x.lines|
    ensures LastReal(x, n) == LastReal(y, n)
    decreases n
  {
    if n > 0 {
      SameLastReal(x, y, n - 1);
    }
  }

  lemma {:induction false} FewerEdits(w: Text, p: seq<TextRange>, a: set<int>, cfg: Config, i: nat,
      more: nat, blank: nat)
    requires Valid(w) && i <= |Lines(w)| && blank <= more && EditsFrom(Plain(w), cfg, i, more) == []
    ensures EditsFrom(Shielding(w, p, a), cfg, i, blank) == []
    decreases |Lines(w)| - i
  {
    hide Lines, LineEdits, NextBlank, AddsNewline;
    var x, y := Plain(w), Shielding(w, p, a);
    if i < |Lines(w)| {
      FewerLineEdits(w, p, a, cfg, i, more, blank);
      FewerEdits(w, p, a, cfg, i + 1, NextBlank(x, i, more), NextBlank(y, i, blank));
    } else {
      FewerFinalEdits(w, p, a, cfg);
    }
  }

  lemma FewerFinalEdits(w: Text, p: seq<TextRange>, a: set<int>, cfg: Config)
    ensures AddsNewline(Shielding(w, p, a), cfg) ==> AddsNewline(Plain(w), cfg)
  {
    hide Lines, LastReal;
    SameLastReal(Plain(w), Shielding(w, p, a), |Lines(w)|);
  }

  /** A text that a pass without protected ranges leaves as it is, and does so without an edit, stays
      as it is under any protection. */
  lemma StaysUnderProtection(w: Text, p: seq<TextRange>, a: set<int>, cfg: Config)
    requires Valid(w) && EditsFrom(Plain(w), cfg, 0, 0) == []
    ensures Formatted(Shielding(w, p, a), cfg) == w
  {
    hide Lines, EditsFrom, TextFrom, D.Ascending, D.Rebuilt;
    var y := Shielding(w, p, a);
    FewerEdits(w, p, a, cfg, 0, 0, 0);
    PlainReady(w);
    FirstLine(y);
    EditsBuildLines(y, cfg, 0, 0);
    D.NothingEdited(w);
  }

  /** What is settled stays settled, whatever parsing the formatted text protects and wherever it
      finds attributes. */
  lemma SettledStays(v: Text, cfg: Config, p: seq<TextRange>, a: set<int>)
    requires Valid(v) && !Unsettled(Plain(v), cfg)
    ensures var w := Formatted(Plain(v), cfg); Valid(w) && Formatted(Shielding(w, p, a), cfg) == w
  {
    hide Lines, Formatted, Unsettled, Leftover, EditsFrom;
    UnsettledIff(v, cfg);
    NothingLeftOver(v, cfg);
    StaysUnderProtection(Formatted(Plain(v), cfg), p, a, cfg);
  }

  /** Whatever the second pass protects, it leaves the formatted text as it is exactly when it edits
      no line of it. */
  lemma SecondPassIff(v: Text, cfg: Config, p: seq<TextRange>, a: set<int>)
    requires Valid(v)
    ensures var w := Formatted(Plain(v), cfg); var y := Shielding(w, p, a);
      Valid(w) && (Formatted(y, cfg) == w <==> EditsFrom(y, cfg, 0, 0) == [])
  {
    hide Lines, EditsFrom, Ended, Bare, TailRemoved, RunsFit, TextFrom, AddsNewline, Clean, KeptEnd, JoinLines,
      Valid, LinesOk;
    var x := Plain(v);
    var w := Formatted(x, cfg);
    OutputFacts(v, cfg);
    SecondOutput(Ended(x, cfg, 0, 0), Bare(x, cfg, 0, 0), cfg);
    PlainReady(w);
    FewerFinalEdits(w, p, a, cfg);
    UnchangedIff(Shielding(w, p, a), cfg);
  }

  // ---------------------------------------------------------------- unsettled texts

  ghost predicate Changes(v: Text, cfg: Config) {
    Valid(v) && Formatted(Plain(Formatted(Plain(v), cfg)), cfg) != Formatted(Plain(v), cfg)
  }

  /** An unterminated blank line over the limit goes, but the newline added after it stays. */
  lemma BlankTailIsUnsettled()
    ensures Changes(" ", Config(LfStyle, true, 0))
  {
    hide Formatted;
    var cfg := Config(LfStyle, true, 0);
    var v := " ";
    assert UnitOk(v, 0);
    assert LinesFrom(v, 0, 1) == [MakeLine(0, 1, 1, NoEnding)];
    assert Lines(v) == [MakeLine(0, 1, 1, NoEnding)];
    assert BlankTail(Plain(v), 0);
    FormattedAgain(v, cfg);
  }

  /** A carriage return and a line feed apart make one line ending when the blank between goes. */
  lemma LoneReturnIsUnsettled()
    ensures Changes("\r \n", Config(LfStyle, true, 1))
  {
    hide Formatted;
    var cfg := Config(LfStyle, true, 1);
    var v := "\r \n";
    assert UnitOk(v, 0) && UnitOk(v, 1) && UnitOk(v, 2);
    assert LinesFrom(v, 3, 3) == [MakeLine(3, 3, 3, NoEnding)];
    assert LinesFrom(v, 0, 2) == [MakeLine(0, 2, 3, Lf)] + LinesFrom(v, 3, 3);
    assert LinesFrom(v, 0, 1) == LinesFrom(v, 0, 2);
    assert Lines(v) == [MakeLine(0, 2, 3, Lf), MakeLine(3, 3, 3, NoEnding)];
    var x := Plain(v);
    assert ContentOf(x, 0) == "\r ";
    assert Blank("\r "[1]) && !Blank("\r "[0]);
    assert "\r "[..1] == "\r";
    assert ReturnLine(x, 0) && Closed(x, cfg, 0);
    FormattedAgain(v, cfg);
  }

  /** Without a final newline each pass takes one more ending off. */
  lemma BareEndingIsUnsettled()
    ensures Changes("\n\n", Config(LfStyle, false, 2))
  {
    hide Formatted;
    var cfg := Config(LfStyle, false, 2);
    var v := "\n\n";
    assert UnitOk(v, 0) && UnitOk(v, 1);
    assert LinesFrom(v, 2, 2) == [MakeLine(2, 2, 2, NoEnding)];
    assert LinesFrom(v, 1, 1) == [MakeLine(1, 1, 2, Lf)] + LinesFrom(v, 2, 2);
    assert Lines(v) == [MakeLine(0, 0, 1, Lf), MakeLine(1, 1, 2, Lf), MakeLine(2, 2, 2, NoEnding)];
    var x := Plain(v);
    assert LastReal(x, 3) == LastReal(x, 2) == Some(1);
    assert BlankAfterOther(x, 2);
    FormattedAgain(v, cfg);
  }
}
