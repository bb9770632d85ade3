/** When formatting a formatted text changes nothing. */
module FormatterFixpoint {
  import opened Text
  import opened Source
  import opened Edits
  import opened Formatter
  import opened JoinedLines
  import G = BlockGrammar

  /** A document without protected ranges and attributes. */
  function Plain(v: Text): Input { Input(v, Lines(v), [], {}) }

  lemma PlainReady(v: Text)
    requires Valid(v)
    ensures Ready(Plain(v))
  {
    LinesFromOk(v, 0, 0);
  }

  lemma PlainLine(v: Text, i: nat)
    requires i < |Lines(v)|
    ensures !Shielded(Plain(v), i) && !BeforeAttribute(Plain(v), i + 1)
  {
    NoAttributes(v, i + 1);
  }

  lemma {:induction false} NoAttributes(v: Text, i: nat)
    requires i <= |Lines(v)|
    ensures !BeforeAttribute(Plain(v), i)
    decreases |Lines(v)| - i
  {
    hide Lines;
    if i < |Lines(v)| {
      NoAttributes(v, i + 1);
    }
  }

  // ---------------------------------------------------------------- the output lines

  predicate Virtual(x: Input, i: nat)
    requires i < |x.lines|
  {
    Empty(x.lines[i]) && x.lines[i].kind.NoEnding?
  }

  /** Lines that have a line ending in the output, if they stay. */
  predicate Closed(x: Input, cfg: Config, i: nat)
    requires i < |x.lines|
  {
    !Virtual(x, i) && (cfg.finalNewline || Some(i) != LastReal(x, |x.lines|))
  }

  function KeptText(x: Input, i: nat): Text
    requires i < |x.lines|
  {
    ContentOf(x, i)[..KeptEnd(ContentOf(x, i))]
  }

  /** An unterminated last line that goes because it is blank and over the limit. */
  predicate TailGoes(x: Input, cfg: Config, i: nat, blank: nat)
    requires i < |x.lines|
  {
    i + 1 == |x.lines| && !Empty(x.lines[i]) && Removed(x, cfg, i, blank)
  }

  function EndedLine(x: Input, cfg: Config, i: nat, blank: nat): seq<Text>
    requires i < |x.lines|
  {
    if !Closed(x, cfg, i) then []
    else if !Removed(x, cfg, i, blank) then [KeptText(x, i)]
    else if TailGoes(x, cfg, i, blank) then [""]
    else []
  }

  /** The contents of the output lines that have an ending. */
  function Ended(x: Input, cfg: Config, i: nat, blank: nat): seq<Text>
    requires i <= |x.lines|
    decreases |x.lines| - i
  {
    if i == |x.lines| then [] else EndedLine(x, cfg, i, blank) + Ended(x, cfg, i + 1, NextBlank(x, i, blank))
  }

  /** The output line without an ending. */
  function Bare(x: Input, cfg: Config, i: nat, blank: nat): Text
    requires i <= |x.lines|
    decreases |x.lines| - i
  {
    if i == |x.lines| then ""
    else if !Closed(x, cfg, i) && !Virtual(x, i) && !Removed(x, cfg, i, blank) then KeptText(x, i)
    else Bare(x, cfg, i + 1, NextBlank(x, i, blank))
  }

  /** Whether the text ends in an unterminated blank line that is over the limit. */
  predicate TailRemoved(x: Input, cfg: Config, i: nat, blank: nat)
    requires i <= |x.lines|
    decreases |x.lines| - i
  {
    i < |x.lines| && (TailGoes(x, cfg, i, blank) || TailRemoved(x, cfg, i + 1, NextBlank(x, i, blank)))
  }

  /** The closing newline is added exactly after an unterminated last line. */
  lemma PlainFinal(v: Text, cfg: Config)
    requires Valid(v) && cfg.finalNewline
    ensures var x := Plain(v); |x.lines| > 0 && (AddsNewline(x, cfg) <==> !Empty(x.lines[|x.lines| - 1]))
  {
    hide Lines, Shielded, EndsInNewline;
    PlainReady(v);
    var x := Plain(v);
    FirstLine(x);
    var n := |x.lines| - 1;
    LineFacts(x, n);
    PlainLine(v, n);
    LastNewline(x);
    if !Empty(x.lines[n]) {
      assert LastReal(x, |x.lines|) == Some(n);
    }
  }

  lemma LastNewline(x: Input)
    requires Ready(x) && |x.lines| > 0
    ensures var l := x.lines[|x.lines| - 1];
      if Empty(l) then x.source == [] || EndsInNewline(x.source) else x.source != [] && !EndsInNewline(x.source)
  {
    hide Ready, LinesOk, Valid;
    var n := |x.lines| - 1;
    LineFacts(x, n);
    HasEnding(x, n);
    FirstLine(x);
    var l := x.lines[n];
    if Empty(l) {
      if n > 0 {
        LineFacts(x, n - 1);
        var p := x.lines[n - 1];
        var e := x.source[p.content.end..p.full.end];
        assert e[|e| - 1] == x.source[|x.source| - 1];
      }
    } else {
      assert EndingAt(x.source, |x.source| - 1).NoEnding?;
    }
  }

  /** Only the empty rest after a final newline can follow the last line that holds anything. */
  lemma AfterLastReal(x: Input, i: nat)
    requires Ready(x) && i < |x.lines|
    ensures Some(i) == LastReal(x, |x.lines|) ==> i + 1 == |x.lines| || (i + 2 == |x.lines| && Virtual(x, i + 1))
    ensures i + 1 == |x.lines| && !Virtual(x, i) ==> Some(i) == LastReal(x, |x.lines|)
    ensures Virtual(x, i) ==> i + 1 == |x.lines|
    ensures x.lines[i].kind.NoEnding? ==> i + 1 == |x.lines|
  {
    hide Ready, LineOk, Valid, LinesOk, Empty;
    var n := |x.lines|;
    HasEnding(x, i);
    HasEnding(x, n - 1);
    LastIsThere(x, n);
    if n > 1 {
      HasEnding(x, n - 2);
      LastIsThere(x, n - 1);
    }
  }

  lemma LastIsThere(x: Input, n: nat)
    requires 0 < n <= |x.lines|
    ensures LastReal(x, n) == if Empty(x.lines[n - 1]) then LastReal(x, n - 1) else Some(n - 1)
  {
  }

  lemma HasEnding(x: Input, i: nat)
    requires Ready(x) && i < |x.lines|
    ensures i + 1 < |x.lines| ==> !Empty(x.lines[i]) && !x.lines[i].kind.NoEnding?
    ensures i + 1 == |x.lines| ==> x.lines[i].kind.NoEnding?
  {
    LineFacts(x, i);
    LastIsBare(x.source, x.lines, 0, i);
  }

  /** A formatted plain text is its output lines. */
  lemma {:induction false} TextIsJoined(v: Text, cfg: Config, i: nat, blank: nat)
    requires Valid(v) && i < |Lines(v)|
    ensures var x := Plain(v);
      TextFrom(x, cfg, i, blank) == JoinLines(Ended(x, cfg, i, blank), Bare(x, cfg, i, blank), cfg.newline)
    decreases |Lines(v)| - i
  {
    hide Lines, AddsNewline, Shielded, Removed, KeptEnd, NextBlank, ContentOf, LastReal, BeforeAttribute, JoinLines,
      Ready, LineOk;
    var x := Plain(v);
    PlainReady(v);
    HasEnding(x, i);
    PlainLine(v, i);
    AfterLastReal(x, i);
    var next := NextBlank(x, i, blank);
    if i + 1 < |x.lines| {
      TextIsJoined(v, cfg, i + 1, next);
      JoinedOne(KeptText(x, i), Ended(x, cfg, i + 1, next), Bare(x, cfg, i, blank), cfg.newline);
      assert [] + Ended(x, cfg, i + 1, next) == Ended(x, cfg, i + 1, next);
      if Some(i) == LastReal(x, |x.lines|) {
        NothingAfter(v, cfg, i + 1, next);
        assert JoinLines([], Bare(x, cfg, i, blank), cfg.newline)
          == Bare(x, cfg, i, blank) by { NoneJoined(Bare(x, cfg, i, blank), cfg.newline); }
      }
    } else {
      LastIsJoined(v, cfg, i, blank);
    }
  }

  lemma NothingAfter(v: Text, cfg: Config, i: nat, blank: nat)
    requires Valid(v) && i < |Lines(v)| && Virtual(Plain(v), i)
    ensures var x := Plain(v);
      TextFrom(x, cfg, i, blank) == "" && Ended(x, cfg, i, blank) == [] && Bare(x, cfg, i, blank) == ""
  {
    hide Lines, Shielded, KeptEnd, BeforeAttribute, AddsNewline, LastReal, Ready, LineOk, LinesOk, Valid, ContentOf,
      G.AllBlank, NextBlank;
    var x := Plain(v);
    PlainReady(v);
    PlainLine(v, i);
    AfterLastReal(x, i);
    VirtualIsNothing(x, i);
    if cfg.finalNewline {
      PlainFinal(v, cfg);
    } else {
      NeverAdded(x, cfg);
    }
    assert FormattedLine(x, cfg, i, blank) == "";
    assert TextFrom(x, cfg, i, blank) == "" + TextFrom(x, cfg, i + 1, NextBlank(x, i, blank));
    assert Ended(x, cfg, i, blank) == [] + Ended(x, cfg, i + 1, NextBlank(x, i, blank));
  }

  lemma VirtualIsNothing(x: Input, i: nat)
    requires Ready(x) && i < |x.lines| && Virtual(x, i)
    ensures ContentOf(x, i) == "" && KeptEnd("") == 0 && !BlankLine(x, i) && !x.lines[i].kind.Lf?
      && !x.lines[i].kind.CrLf?
  {
    hide Ready, KeptEnd;
    LineFacts(x, i);
  }

  lemma NeverAdded(x: Input, cfg: Config)
    requires !cfg.finalNewline
    ensures !AddsNewline(x, cfg)
  {
  }

  lemma LastIsJoined(v: Text, cfg: Config, i: nat, blank: nat)
    requires Valid(v) && i + 1 == |Lines(v)|
    ensures var x := Plain(v);
      TextFrom(x, cfg, i, blank) == JoinLines(Ended(x, cfg, i, blank), Bare(x, cfg, i, blank), cfg.newline)
  {
    hide Lines, Shielded, Removed, KeptEnd, LastReal, BeforeAttribute, AddsNewline, JoinLines, NextBlank;
    var x := Plain(v);
    PlainReady(v);
    PlainLine(v, i);
    HasEnding(x, i);
    AfterLastReal(x, i);
    NoneJoined(Bare(x, cfg, i, blank), cfg.newline);
    NoneJoined("", cfg.newline);
    JoinedOne(KeptText(x, i), [], "", cfg.newline);
    JoinedOne("", [], "", cfg.newline);
    var kept := KeptText(x, i);
    assert kept + "" == kept && [kept] + [] == [kept] && [""] + [] == [""];
    if Virtual(x, i) {
      NothingAfter(v, cfg, i, blank);
    } else if cfg.finalNewline {
      PlainFinal(v, cfg);
    } else {
      NeverAdded(x, cfg);
      assert !Closed(x, cfg, i);
      assert EndedLine(x, cfg, i, blank) == [];
      assert Ended(x, cfg, i, blank) == [] + [] == [];
      assert Bare(x, cfg, i, blank) == if Removed(x, cfg, i, blank) then "" else kept;
      assert FormattedLine(x, cfg, i, blank) == Bare(x, cfg, i, blank);
      assert TextFrom(x, cfg, i, blank) == FormattedLine(x, cfg, i, blank) + "";
    }
  }

  // ---------------------------------------------------------------- what output lines are like

  lemma KeptIsClean(c: Text)
    requires Valid(c) && '\n' !in c
    ensures Clean(c[..KeptEnd(c)]) && (G.AllBlank(c[..KeptEnd(c)]) <==> G.AllBlank(c))
  {
    var k := c[..KeptEnd(c)];
    if Structural(c) {
      assert k == c;
    } else {
      TrimmedIsWhole(c);
      SliceIsValid(c, 0, G.TrimmedEnd(c));
      assert c[0..G.TrimmedEnd(c)] == k;
      TrimmedAgain(c);
    }
  }

  lemma TrimmedIsWhole(c: Text)
    requires Valid(c)
    ensures Boundary(c, 0) && Boundary(c, G.TrimmedEnd(c))
  {
    var e := G.TrimmedEnd(c);
    if e < |c| {
      assert Blank(c[e]);
    }
  }

  lemma TrimmedAgain(c: Text)
    ensures var k := c[..G.TrimmedEnd(c)];
      && G.TrimmedEnd(k) == |k| && KeptEnd(k) == |k| && (G.AllBlank(k) <==> G.AllBlank(c))
  {
    var k := c[..G.TrimmedEnd(c)];
    assert k == [] || !Blank(k[|k| - 1]);
    assert G.TrimmedEnd(k) == |k|;
    assert k[..|k|] == k;
    assert k != [] ==> !G.AllBlank(k);
    if !G.AllBlank(c) {
      var i :| 0 <= i < |c| && !Blank(c[i]);
      assert k[i] == c[i];
    }
  }

  lemma ContentIsLine(x: Input, i: nat)
    requires Ready(x) && i < |x.lines|
    ensures Valid(ContentOf(x, i)) && '\n' !in ContentOf(x, i)
  {
    LineFacts(x, i);
    LinesAt(x.source, x.lines, 0, i);
    var v, l := x.source, x.lines[i];
    SliceIsValid(v, l.content.start, l.content.end);
    forall j | 0 <= j < |ContentOf(x, i)| ensures ContentOf(x, i)[j] != '\n' {
      assert EndingAt(v, l.content.start + j).NoEnding?;
    }
  }

  lemma {:induction false} OutputClean(x: Input, cfg: Config, i: nat, blank: nat)
    requires Ready(x) && i <= |x.lines|
    ensures AllClean(Ended(x, cfg, i, blank)) && Clean(Bare(x, cfg, i, blank))
    ensures cfg.finalNewline ==> Bare(x, cfg, i, blank) == ""
    decreases |x.lines| - i
  {
    hide Ready, Removed, KeptEnd, NextBlank, ContentOf, Clean, LastReal;
    NothingIsClean();
    if i < |x.lines| {
      OutputClean(x, cfg, i + 1, NextBlank(x, i, blank));
      ContentIsLine(x, i);
      KeptIsClean(ContentOf(x, i));
    }
  }

  lemma NothingIsClean()
    ensures Clean("") && G.AllBlank("")
  {
    KeptIsClean("");
  }

  /** No run of blank lines over the limit, after `blank` of them. */
  predicate RunsFit(s: seq<Text>, blank: nat, limit: nat) {
    s == [] || if G.AllBlank(s[0]) then blank + 1 <= limit && RunsFit(s[1..], blank + 1, limit)
      else RunsFit(s[1..], 0, limit)
  }

  /** The output lines have no run over the limit, unless a last line without a newline was
      taken out: the newline added for it makes one. */
  lemma {:induction false} OutputRuns(v: Text, cfg: Config, i: nat, blank: nat)
    requires Valid(v) && i < |Lines(v)|
    ensures var x := Plain(v); var start := Min(blank, cfg.maxBlank);
      RunsFit(Ended(x, cfg, i, blank), start, cfg.maxBlank) <==> !(cfg.finalNewline && TailRemoved(x, cfg, i, blank))
    decreases |Lines(v)| - i
  {
    hide Lines, EndedLine, NextBlank, RunsFit, TailRemoved, TailGoes, Ready;
    var x := Plain(v);
    var next := NextBlank(x, i, blank);
    TailStep(x, cfg, i, blank);
    if i + 1 < |x.lines| {
      OutputRuns(v, cfg, i + 1, next);
      LineRuns(v, cfg, i, blank);
    } else {
      LastRuns(v, cfg, i, blank);
    }
  }

  lemma LineRuns(v: Text, cfg: Config, i: nat, blank: nat)
    requires Valid(v) && i + 1 < |Lines(v)|
    ensures var x := Plain(v); var next := NextBlank(x, i, blank); var rest := Ended(x, cfg, i + 1, next);
      RunsFit(EndedLine(x, cfg, i, blank) + rest, Min(blank, cfg.maxBlank), cfg.maxBlank) <==>
        RunsFit(rest, Min(next, cfg.maxBlank), cfg.maxBlank)
  {
    hide Lines, KeptText, ContentOf, Shielded, BeforeAttribute, G.AllBlank, LastReal, Ready, LineOk, Virtual, RunsFit,
      Empty, Ended;
    var x := Plain(v);
    PlainReady(v);
    PlainLine(v, i);
    KeptBlank(x, i);
    AfterLastReal(x, i);
    HasEnding(x, i);
    var next := NextBlank(x, i, blank);
    var rest, start := Ended(x, cfg, i + 1, next), Min(blank, cfg.maxBlank);
    RunsStep(KeptText(x, i), rest, start, cfg.maxBlank);
    assert [] + rest == rest;
    if Some(i) == LastReal(x, |x.lines|) {
      NothingAfter(v, cfg, i + 1, next);
      NoRuns(start, cfg.maxBlank);
      NoRuns(Min(next, cfg.maxBlank), cfg.maxBlank);
    }
  }

  lemma KeptBlank(x: Input, i: nat)
    requires Ready(x) && i < |x.lines|
    ensures G.AllBlank(KeptText(x, i)) <==> G.AllBlank(ContentOf(x, i))
  {
    hide ContentOf;
    ContentIsLine(x, i);
    KeptIsClean(ContentOf(x, i));
  }

  lemma TailStep(x: Input, cfg: Config, i: nat, blank: nat)
    requires i < |x.lines|
    ensures TailRemoved(x, cfg, i, blank) <==>
      if i + 1 < |x.lines| then TailRemoved(x, cfg, i + 1, NextBlank(x, i, blank)) else TailGoes(x, cfg, i, blank)
  {
    hide Removed, NextBlank;
  }

  lemma RunsStep(k: Text, rest: seq<Text>, blank: nat, limit: nat)
    ensures RunsFit([k] + rest, blank, limit) <==>
      if G.AllBlank(k) then blank + 1 <= limit && RunsFit(rest, blank + 1, limit) else RunsFit(rest, 0, limit)
  {
    hide G.AllBlank;
    assert ([k] + rest)[1..] == rest;
  }

  lemma NoRuns(blank: nat, limit: nat)
    ensures RunsFit([], blank, limit)
  {
  }

  lemma LastRuns(v: Text, cfg: Config, i: nat, blank: nat)
    requires Valid(v) && i + 1 == |Lines(v)|
    ensures var x := Plain(v); var start := Min(blank, cfg.maxBlank);
      RunsFit(Ended(x, cfg, i, blank), start, cfg.maxBlank) <==> !(cfg.finalNewline && TailGoes(x, cfg, i, blank))
  {
    hide Lines, KeptText, ContentOf, Shielded, BeforeAttribute, G.AllBlank, LastReal, Ready, LineOk, RunsFit,
      TailRemoved;
    var x := Plain(v);
    PlainReady(v);
    PlainLine(v, i);
    KeptBlank(x, i);
    AfterLastReal(x, i);
    HasEnding(x, i);
    NothingIsClean();
    var kept, start := KeptText(x, i), Min(blank, cfg.maxBlank);
    RunsStep(kept, [], start, cfg.maxBlank);
    RunsStep("", [], start, cfg.maxBlank);
    NoRuns(start, cfg.maxBlank);
    NoRuns(start + 1, cfg.maxBlank);
    NoRuns(0, cfg.maxBlank);
    assert [kept] + [] == [kept] && [""] + [] == [""];
    assert Ended(x, cfg, i, blank) == EndedLine(x, cfg, i, blank) + [] == EndedLine(x, cfg, i, blank);
  }

  // ---------------------------------------------------------------- the second pass

  /** Joined clean lines that lex back into themselves; with a final newline nothing follows it. */
  ghost predicate Lexes(s: seq<Text>, last: Text, cfg: Config) {
    && AllClean(s) && Clean(last) && (cfg.newline.LfStyle? ==> NoReturns(s)) && (cfg.finalNewline ==> last == "")
  }

  function Again(s: seq<Text>, last: Text, cfg: Config): Input { Plain(JoinLines(s, last, cfg.newline)) }

  lemma AgainFacts(s: seq<Text>, last: Text, cfg: Config, i: nat)
    requires Lexes(s, last, cfg) && i <= |s|
    ensures var x := Again(s, last, cfg);
      && Ready(x) && |x.lines| == |s| + 1 && ContentOf(x, i) == (if i < |s| then s[i] else last)
      && (if i < |s| then x.lines[i].kind == NewlineKind(cfg.newline) && !Empty(x.lines[i])
          else x.lines[i].kind == NoEnding && (Empty(x.lines[i]) <==> last == ""))
      && LastReal(x, |x.lines|) == (if last != "" then Some(|s|) else if s != [] then Some(|s| - 1) else None)
      && !AddsNewline(x, cfg)
  {
    hide Lines, JoinLines, KeptEnd, Shielded, BeforeAttribute, Table, Clean, LinesOk, Valid, LastReal, EndsInNewline,
      NoReturns, ContentOf;
    var n := cfg.newline;
    var w := JoinLines(s, last, n);
    JoinedTable(s, last, n);
    TableAt(s, last, n, 0, i);
    PlainReady(w);
    assert w[0..] == w;
    TableContent(w, s, last, n, 0, i);
    LineFacts(Plain(w), i);
    AgainLast(s, last, cfg);
    JoinedEnds(s, n);
    NoneJoined(last, n);
  }

  lemma AgainLast(s: seq<Text>, last: Text, cfg: Config)
    requires Lexes(s, last, cfg)
    ensures var x := Again(s, last, cfg);
      LastReal(x, |x.lines|) == (if last != "" then Some(|s|) else if s != [] then Some(|s| - 1) else None)
  {
    hide Lines, JoinLines, KeptEnd, Table, Clean, LinesOk, Valid;
    JoinedTable(s, last, cfg.newline);
    var x := Again(s, last, cfg);
    TableAt(s, last, cfg.newline, 0, |s|);
    LastIsThere(x, |s| + 1);
    if s != [] {
      TableAt(s, last, cfg.newline, 0, |s| - 1);
      LastIsThere(x, |s|);
    }
  }

  lemma {:induction false} JoinedEnds(s: seq<Text>, n: Newline)
    ensures s != [] ==> EndsInNewline(JoinLines(s, "", n))
    decreases |s|
  {
    if s != [] {
      JoinedEnds(s[1..], n);
    }
  }

  /** Formatting joined clean lines again edits nothing exactly when no run of blanks is too
      long and no ending is to be taken off. */
  lemma {:induction false} SecondPass(s: seq<Text>, last: Text, cfg: Config, i: nat, blank: nat)
    requires Lexes(s, last, cfg) && i <= |s|
    ensures |Again(s, last, cfg).lines| == |s| + 1
    ensures EditsFrom(Again(s, last, cfg), cfg, i, blank) == [] <==>
      RunsFit(s[i..], blank, cfg.maxBlank) && (cfg.finalNewline || i == |s| || last != "")
    decreases |s| - i
  {
    hide Lines, JoinLines, KeptEnd, Shielded, BeforeAttribute, LastReal, AddsNewline, Table, Clean, G.AllBlank,
      ContentOf, LineEdits, NextBlank, AllClean, Ready;
    var x := Again(s, last, cfg);
    AgainFacts(s, last, cfg, i);
    SecondLine(s, last, cfg, i, blank);
    var next := NextBlank(x, i, blank);
    if i == |s| {
      assert EditsFrom(x, cfg, i + 1, next) == [];
    } else {
      SecondPass(s, last, cfg, i + 1, next);
      assert s[i..][1..] == s[i + 1..];
    }
  }

  lemma SecondLine(s: seq<Text>, last: Text, cfg: Config, i: nat, blank: nat)
    requires Lexes(s, last, cfg) && i <= |s|
    ensures var x := Again(s, last, cfg);
      && i < |x.lines|
      && (i == |s| ==> LineEdits(x, cfg, i, blank) == [])
      && (i < |s| ==> NextBlank(x, i, blank) == (if G.AllBlank(s[i]) then blank + 1 else 0))
      && (i < |s| ==> (LineEdits(x, cfg, i, blank) == [] <==>
           !(G.AllBlank(s[i]) && cfg.maxBlank < blank + 1) && (cfg.finalNewline || last != "" || i + 1 != |s|)))
  {
    hide Lines, JoinLines, KeptEnd, Shielded, BeforeAttribute, LastReal, G.AllBlank, ContentOf, Ready, AddsNewline;
    var x := Again(s, last, cfg);
    AgainFacts(s, last, cfg, i);
    PlainLine(JoinLines(s, last, cfg.newline), i);
    BlankIsNothing(last);
    assert i < |s| ==> Clean(s[i]);
  }

  lemma BlankIsNothing(k: Text)
    requires Clean(k)
    ensures G.AllBlank(k) ==> k == ""
  {
    if Structural(k) {
      TrimmedAgain(k);
    } else if k != [] {
      assert !Blank(k[|k| - 1]);
    }
  }

  // ---------------------------------------------------------------- edits shrink

  /** Whether no line would get a longer ending. */
  ghost predicate NoLonger(x: Input, cfg: Config) {
    cfg.newline.CrLfStyle? ==> forall i :: 0 <= i < |x.lines| ==> !x.lines[i].kind.Lf?
  }

  lemma LineShrinks(x: Input, cfg: Config, i: nat, blank: nat)
    requires Ready(x) && i < |x.lines| && NoLonger(x, cfg)
    ensures var l := x.lines[i];
      && |FormattedLine(x, cfg, i, blank)| <= l.full.end - l.full.start
      && (LineEdits(x, cfg, i, blank) != [] ==> |FormattedLine(x, cfg, i, blank)| < l.full.end - l.full.start)
  {
    hide Ready, Shielded, BeforeAttribute, LastReal, KeptEnd, G.AllBlank;
    LineFacts(x, i);
  }

  /** Without a newline to add and longer endings to write, edits make a text shorter. */
  lemma {:induction false} EditsShrink(x: Input, cfg: Config, i: nat, blank: nat)
    requires Ready(x) && i <= |x.lines| && NoLonger(x, cfg) && !AddsNewline(x, cfg)
    ensures LineStart(x, i) <= |x.source| && |TextFrom(x, cfg, i, blank)| <= |x.source| - LineStart(x, i)
    ensures EditsFrom(x, cfg, i, blank) != [] ==> |TextFrom(x, cfg, i, blank)| < |x.source| - LineStart(x, i)
    decreases |x.lines| - i
  {
    hide Ready, LineEdits, FormattedLine, NextBlank, NoLonger;
    if i < |x.lines| {
      LineFacts(x, i);
      LineShrinks(x, cfg, i, blank);
      EditsShrink(x, cfg, i + 1, NextBlank(x, i, blank));
    }
  }

  /** A text stays as it is exactly when no line is edited. */
  lemma UnchangedIff(x: Input, cfg: Config)
    requires Ready(x) && NoLonger(x, cfg) && !AddsNewline(x, cfg)
    ensures Formatted(x, cfg) == x.source <==> EditsFrom(x, cfg, 0, 0) == []
  {
    hide Ready, EditsFrom, TextFrom, NoLonger, AddsNewline, Ascending, Rebuilt;
    FirstLine(x);
    EditsBuildLines(x, cfg, 0, 0);
    EditsShrink(x, cfg, 0, 0);
    if EditsFrom(x, cfg, 0, 0) == [] {
      NothingEdited(x.source);
    }
  }

  // ---------------------------------------------------------------- a lone carriage return

  lemma {:induction false} EditReached(x: Input, cfg: Config, i: nat, blank: nat, at: nat)
    requires i <= at < |x.lines| && forall b: nat :: LineEdits(x, cfg, at, b) != []
    ensures EditsFrom(x, cfg, i, blank) != []
    decreases at - i
  {
    hide LineEdits, NextBlank;
    if i < at {
      EditReached(x, cfg, i + 1, NextBlank(x, i, blank), at);
    }
  }

  lemma ReturnIsEdited(s: seq<Text>, last: Text, cfg: Config, i: nat)
    requires AllClean(s) && Clean(last) && cfg.newline.LfStyle? && i < |s| && EndsInReturn(s[i])
    ensures EditsFrom(Again(s, last, cfg), cfg, 0, 0) != []
  {
    hide JoinLines, Lines, Shielded, BeforeAttribute, LastReal, G.AllBlank, KeptEnd, Clean, EditsFrom;
    var w := JoinLines(s, last, cfg.newline);
    JoinedIsValid(s, last, cfg.newline);
    PlainReady(w);
    var p := ReturnMeets(s, last, i);
    var at := ReturnEndsLine(w, Lines(w), 0, p);
    PlainLine(w, at);
    forall b: nat ensures LineEdits(Plain(w), cfg, at, b) != [] {
    }
    EditReached(Plain(w), cfg, 0, 0, at);
  }

  // ---------------------------------------------------------------- the theorem

  /** What a second pass would still change, seen on the output of the first: an unterminated last
      line that goes although the final newline is then added; a line ending that is last without a
      final newline; a carriage return in front of a line feed. */
  predicate Leftover(x: Input, cfg: Config) {
    || (cfg.finalNewline && TailRemoved(x, cfg, 0, 0))
    || (!cfg.finalNewline && Ended(x, cfg, 0, 0) != [] && Bare(x, cfg, 0, 0) == "")
    || (cfg.newline.LfStyle? && !NoReturns(Ended(x, cfg, 0, 0)))
  }

  lemma OutputFacts(v: Text, cfg: Config)
    requires Valid(v)
    ensures var x := Plain(v); var s, last := Ended(x, cfg, 0, 0), Bare(x, cfg, 0, 0);
      && AllClean(s) && Clean(last) && (cfg.finalNewline ==> last == "")
      && Formatted(x, cfg) == JoinLines(s, last, cfg.newline) && Valid(Formatted(x, cfg))
      && (RunsFit(s, 0, cfg.maxBlank) <==> !(cfg.finalNewline && TailRemoved(x, cfg, 0, 0)))
  {
    hide Lines, Ended, Bare, TailRemoved, TextFrom, RunsFit, KeptEnd, JoinLines, Clean, Valid, LinesOk;
    var x := Plain(v);
    PlainReady(v);
    FirstLine(x);
    TextIsJoined(v, cfg, 0, 0);
    OutputClean(x, cfg, 0, 0);
    OutputRuns(v, cfg, 0, 0);
    JoinedIsValid(Ended(x, cfg, 0, 0), Bare(x, cfg, 0, 0), cfg.newline);
  }

  /** For a text without protected ranges and attributes, formatting the formatted text changes
      nothing exactly when the first pass leaves nothing over. */
  lemma AgainIff(v: Text, cfg: Config)
    requires Valid(v)
    ensures var x := Plain(v); var w := Formatted(x, cfg);
      Valid(w) && (Formatted(Plain(w), cfg) == w <==> !Leftover(x, cfg))
  {
    hide Lines, Ended, Bare, TailRemoved, TextFrom, EditsFrom, RunsFit, AddsNewline, KeptEnd, JoinLines, Table, Clean,
      Valid, Ready;
    var x := Plain(v);
    var s, last := Ended(x, cfg, 0, 0), Bare(x, cfg, 0, 0);
    var w := Formatted(x, cfg);
    OutputFacts(v, cfg);
    PlainReady(w);
    SecondOutput(s, last, cfg);
    UnchangedIff(Plain(w), cfg);
    if cfg.newline.LfStyle? && !NoReturns(s) {
      var i :| 0 <= i < |s| && EndsInReturn(s[i]);
      ReturnIsEdited(s, last, cfg, i);
    } else {
      SecondPass(s, last, cfg, 0, 0);
      assert s[0..] == s;
    }
  }

  /** Then the second pass makes no edit. */
  lemma NothingLeftOver(v: Text, cfg: Config)
    requires Valid(v) && !Leftover(Plain(v), cfg)
    ensures var w := Formatted(Plain(v), cfg); Valid(w) && EditsFrom(Plain(w), cfg, 0, 0) == []
  {
    hide Lines, Ended, Bare, TailRemoved, TextFrom, EditsFrom, RunsFit, AddsNewline, KeptEnd, JoinLines, Table, Clean,
      Valid, Ready;
    var x := Plain(v);
    var s, last := Ended(x, cfg, 0, 0), Bare(x, cfg, 0, 0);
    OutputFacts(v, cfg);
    SecondPass(s, last, cfg, 0, 0);
    assert s[0..] == s;
  }

  lemma SecondOutput(s: seq<Text>, last: Text, cfg: Config)
    requires AllClean(s) && Clean(last) && (cfg.finalNewline ==> last == "")
    ensures NoLonger(Again(s, last, cfg), cfg) && !AddsNewline(Again(s, last, cfg), cfg)
  {
    hide Lines, JoinLines, Table, KeptEnd, Clean, LastReal, Shielded;
    JoinedEnds(s, cfg.newline);
    if s == [] {
      NoneJoined(last, cfg.newline);
    }
    if cfg.newline.CrLfStyle? {
      forall i | 0 <= i < |Again(s, last, cfg).lines| ensures !Again(s, last, cfg).lines[i].kind.Lf? {
        AgainKinds(s, last, cfg, i);
      }
    }
  }

  lemma AgainKinds(s: seq<Text>, last: Text, cfg: Config, i: nat)
    requires Lexes(s, last, cfg) && i < |Again(s, last, cfg).lines|
    ensures var l := Again(s, last, cfg).lines[i]; l.kind == NewlineKind(cfg.newline) || l.kind.NoEnding?
  {
    hide Lines, JoinLines, Table, KeptEnd, Clean, LastReal, Shielded;
    AgainFacts(s, last, cfg, 0);
    AgainFacts(s, last, cfg, i);
  }
}
