/** When trimming the blanks at its end changes what kind of line a line is. */
module LineClasses {
  import opened Text
  import opened Source
  import opened BlockGrammar
  import E = EscapedMacros
  import F = Formatter
  import J = JoinedLines
  import L = LineForms
  import P = FormatterFixpoint

  /** `c` ends in blanks, and `k` is what is left without them; neither is a delimiter, an attribute
      list or an anchor. */
  predicate Trims(k: Text, c: Text) {
    k != c && L.TrimOf(k, c) && !L.HasForm(k) && !L.HasForm(c)
  }

  lemma KeptTrims(c: Text)
    ensures var k := c[..F.KeptEnd(c)]; k == c || Trims(k, c)
  {
    hide DelimiterOf, BlockAttributes, AnchorLine;
    var k, t := c[..F.KeptEnd(c)], c[..TrimmedEnd(c)];
    assert L.TrimOf(t, c);
    L.KeptIff(c, t);
    L.KeptForms(c);
  }

  lemma Survives(k: Text, c: Text)
    requires Trims(k, c)
    ensures |k| < |c| && Blank(c[|c| - 1]) && forall i :: 0 <= i < |k| ==> k[i] == c[i]
    ensures forall i :: 0 <= i < |c| && !Blank(c[i]) ==> i < |k|
  {
    hide DelimiterOf, BlockAttributes, AnchorLine;
  }

  lemma SameStarts(k: Text, c: Text, p: string)
    requires Trims(k, c) && forall i :: 0 <= i < |p| ==> !Blank(p[i])
    ensures Starts(k, p) <==> Starts(c, p)
  {
    hide DelimiterOf, BlockAttributes, AnchorLine;
    Survives(k, c);
    assert |p| <= |k| ==> k[0..|p|] == c[0..|p|];
    assert p != [] && |p| <= |c| ==> c[0..|p|][|p| - 1] == c[|p| - 1];
  }

  lemma SameTitle(k: Text, c: Text)
    requires Trims(k, c)
    ensures BlockTitle(k) <==> BlockTitle(c)
  {
    hide DelimiterOf, BlockAttributes, AnchorLine, Starts;
    Survives(k, c);
    SameStarts(k, c, "..");
    SameStarts(k, c, ".");
    StartsLong(c);
    StartsLong(k);
  }

  lemma StartsLong(c: Text)
    ensures (Starts(c, "..") ==> 2 <= |c|) && (Starts(c, ".") ==> 1 <= |c|)
  {
  }

  lemma {:induction false} SameNext(k: Text, c: Text, i: nat, ch: char)
    requires k <= c && !Blank(ch) && forall j :: |k| <= j < |c| ==> Blank(c[j])
    ensures NextUnit(k, i, ch) == NextUnit(c, i, ch)
    decreases |c| - i
  {
    if i < |c| && c[i] != ch {
      SameNext(k, c, i + 1, ch);
    }
  }

  lemma SameAttribute(k: Text, c: Text)
    requires Trims(k, c)
    ensures AttributeLine(k) <==> AttributeLine(c)
  {
    hide DelimiterOf, BlockAttributes, AnchorLine;
    Survives(k, c);
    SameNext(k, c, 1, ':');
  }

  lemma SameBlank(k: Text, c: Text)
    requires Trims(k, c)
    ensures AllBlank(k) <==> AllBlank(c)
    ensures !AllBlank(c) ==> k != [] && k[0] == c[0] && (StartsBlank(k) <==> StartsBlank(c))
  {
    hide DelimiterOf, BlockAttributes, AnchorLine;
    Survives(k, c);
    assert k != [] ==> !Blank(k[|k| - 1]) && c[|k| - 1] == k[|k| - 1];
  }

  // ---------------------------------------------------------------- list markers

  lemma {:induction false} SameRun(k: Text, c: Text, ch: char)
    requires k <= c && !Blank(ch) && forall j :: |k| <= j < |c| ==> Blank(c[j])
    ensures Run(k, ch) == Run(c, ch)
    decreases |c|
  {
    if k != [] && k[0] == ch {
      SameRun(k[1..], c[1..], ch);
    }
  }

  lemma {:induction false} SameDigits(k: Text, c: Text)
    requires k <= c && forall j :: |k| <= j < |c| ==> Blank(c[j])
    ensures Digits(k) == Digits(c)
    decreases |c|
  {
    if k != [] && '0' <= k[0] <= '9' {
      SameDigits(k[1..], c[1..]);
    }
  }

  lemma {:induction false} SameTerm(k: Text, c: Text, i: nat)
    requires k <= c && i <= |k| && forall j :: |k| <= j < |c| ==> Blank(c[j])
    ensures TermMarker(k, i).Some? ==> TermMarker(c, i).Some?
    ensures TermMarker(c, i).Some? ==> TermMarker(k, i).Some?
    decreases |k| - i
  {
    hide StartsWith;
    if i < |k| {
      SameWidth(k, c, i);
      SameTerm(k, c, i + 1);
    } else {
      NoTerm(c, i);
    }
  }

  lemma SameWidth(k: Text, c: Text, i: nat)
    requires k <= c && i < |k| && forall j :: |k| <= j < |c| ==> Blank(c[j])
    ensures TermWidth(k, i) == TermWidth(c, i)
  {
    SameWithin(k, c, i, "::::");
    SameWithin(k, c, i, ":::");
    SameWithin(k, c, i, "::");
    SameWithin(k, c, i, ";;");
  }

  lemma SameWithin(k: Text, c: Text, i: nat, p: string)
    requires k <= c && p != [] && !Blank(p[|p| - 1]) && forall j :: |k| <= j < |c| ==> Blank(c[j])
    ensures StartsWith(k, i, p) <==> StartsWith(c, i, p)
  {
    assert i + |p| <= |k| ==> k[i..i + |p|] == c[i..i + |p|];
    assert i + |p| <= |c| ==> c[i..i + |p|][|p| - 1] == c[i + |p| - 1];
  }

  lemma {:induction false} NoTerm(c: Text, i: nat)
    requires i <= |c| && forall j :: i <= j < |c| ==> c[j] !in ":;"
    ensures TermMarker(c, i).None?
    decreases |c| - i
  {
    if i < |c| {
      NoWidth(c, i);
      NoTerm(c, i + 1);
    }
  }

  lemma NoWidth(c: Text, i: nat)
    requires i < |c| && c[i] !in ":;"
    ensures TermWidth(c, i) == 0
  {
    E.FirstUnit(c, i, "::::");
    E.FirstUnit(c, i, ":::");
    E.FirstUnit(c, i, "::");
    E.FirstUnit(c, i, ";;");
  }

  /** Trimming makes no list marker, and takes one away only where no text follows it. */
  lemma MarkerStays(k: Text, c: Text)
    requires Trims(k, c) && MarkerOf(k).Some?
    ensures MarkerOf(c).Some?
  {
    hide DelimiterOf, BlockAttributes, AnchorLine, MarkerFits, TermMarker, Unsigned32;
    Survives(k, c);
    if k[0] in "*." {
      SameRun(k, c, k[0]);
    } else if '0' <= k[0] <= '9' {
      SameDigits(k, c);
    } else if k[0] == '<' {
      SameNext(k, c, 0, '>');
      var close := NextUnit(k, 0, '>').value;
      assert k[1..close] == c[1..close];
    } else {
      SameTerm(k, c, 0);
    }
  }

  // ---------------------------------------------------------------- the theorem

  lemma NoUnsupported(k: Text, c: Text)
    requires Trims(k, c) && !AllBlank(c) && !StartsBlank(c) && MarkerOf(k).None?
    ensures UnsupportedForm(k) <==> k[0] == '['
    ensures MarkerOf(c).None? ==> (UnsupportedForm(c) <==> c[0] == '[')
  {
    hide MarkerFits, TermMarker, BlockAttributes, AnchorLine, TableDelimiter;
    SameBlank(k, c);
    Survives(k, c);
    assert k[BlankRun(k)..] == k && c[BlankRun(c)..] == c;
    StarStarts(k);
    StarStarts(c);
    EndsShort(c);
  }

  lemma EndsShort(c: Text)
    requires c != [] && !Blank(c[0]) && Blank(c[|c| - 1])
    ensures !Repeated(c, c[0])
  {
  }

  lemma StarStarts(c: Text)
    ensures Starts(c, "* ") || Starts(c, ". ") ==> MarkerOf(c).Some?
  {
    hide MarkerFits, TermMarker;
    if Starts(c, "* ") || Starts(c, ". ") {
      assert c[0..2][0] == c[0] && c[0..2][1] == c[1];
      assert Run(c[1..], c[0]) == 0;
    }
  }

  /** Trimming changes the class of a line exactly when what is left is a thematic or page break, or
      the line was a list item without text that is none any more. */
  lemma ClassChangesIff(g: Grammar, c: Text, next: Option<Text>, position: bool)
    requires g.directive(c[..F.KeptEnd(c)]) == g.directive(c)
    ensures var k := c[..F.KeptEnd(c)];
      Classify(g, k, next, position) != Classify(g, c, next, position) <==>
        k != c && (k == "'''" || k == "<<<" || (Classify(g, c, next, position).ListText? && MarkerOf(k).None?))
  {
    hide DelimiterOf, BlockAttributes, AnchorLine, BlockTitle, AttributeLine, MarkerOf, UnsupportedForm,
      Starts, AllBlank,
      StartsBlank, L.TrimOf;
    var k := c[..F.KeptEnd(c)];
    KeptTrims(c);
    if k != c {
      SameStarts(k, c, "//");
      SameStarts(k, c, "=");
      SameTitle(k, c);
      SameAttribute(k, c);
      SameBlank(k, c);
      BreaksDiffer(k, c);
      if MarkerOf(k).Some? {
        MarkerStays(k, c);
      } else if !AllBlank(c) && !StartsBlank(c) {
        NoUnsupported(k, c);
      }
    }
  }

  /** A line that ends in blanks is no break. */
  lemma BreaksDiffer(k: Text, c: Text)
    requires Trims(k, c)
    ensures c != "'''" && c != "<<<"
    ensures k == "'''" || k == "<<<" ==>
      MarkerOf(c).None? && !AllBlank(k) && !BlockTitle(k) && !Starts(k, "//") && !AttributeLine(k)
  {
    hide DelimiterOf, BlockAttributes, AnchorLine, TermMarker, StartsWith;
    Survives(k, c);
    if k == "'''" || k == "<<<" {
      E.FirstUnit(k, 0, "..");
      E.FirstUnit(k, 0, ".");
      E.FirstUnit(k, 0, "//");
      assert c[0] == k[0] && c[1] == k[1] && c[2] == k[2];
      NoTerm(c, 0);
    }
  }

  const QUOTES: Text := "'''"
  const QUOTES_BLANK: Text := "''' "

  /** Three quotes and a blank are a paragraph; formatted, they are a thematic break. */
  lemma BreakAppears(g: Grammar, next: Option<Text>, position: bool)
    requires !g.directive(QUOTES_BLANK) && !g.directive(QUOTES)
    ensures QUOTES_BLANK[..F.KeptEnd(QUOTES_BLANK)] == QUOTES
    ensures Classify(g, QUOTES_BLANK, next, position) == ParagraphText && Classify(g, QUOTES, next, position) == Break
  {
    hide DelimiterOf, BlockAttributes, AnchorLine, BlockTitle, AttributeLine, MarkerOf, UnsupportedForm, Starts;
    var c, k := QUOTES_BLANK, QUOTES;
    QuotesTrim(c, k);
    BreaksDiffer(k, c);
    SameStarts(k, c, "//");
    SameStarts(k, c, "=");
    SameTitle(k, c);
    SameAttribute(k, c);
    SameBlank(k, c);
    L.KeptIff(c, k);
    QuotesAreFlush(k, c);
  }

  lemma QuotesTrim(c: Text, k: Text)
    requires c == QUOTES_BLANK && k == QUOTES
    ensures Trims(k, c)
  {
    hide L.HasForm;
    assert c[..3] == k && c[3] == ' ' && k[2] == '\'' && k[0] == '\'';
    L.BlankEndHasNoForm(c);
    ShortHasNoForm(k);
  }

  lemma ShortHasNoForm(k: Text)
    requires |k| == 3 && k[0] == '\''
    ensures !L.HasForm(k)
  {
    hide Run, Starts;
  }

  lemma QuotesAreFlush(k: Text, c: Text)
    requires k == QUOTES && Trims(k, c) && !AllBlank(c) && MarkerOf(c).None?
    ensures !StartsBlank(c) && !Starts(c, "=") && !UnsupportedForm(c) && !BlockAttributes(c)
  {
    hide DelimiterOf, AnchorLine, StartsWith, TermMarker;
    Survives(k, c);
    assert c[0] == k[0] == '\'';
    E.FirstUnit(c, 0, "=");
    E.FirstUnit(c, 0, "* ");
    E.FirstUnit(c, 0, ". ");
    assert c[BlankRun(c)..] == c;
  }
}
