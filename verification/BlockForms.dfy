/** The lines that are delimiters and list markers, told from their characters. */
module BlockForms {
  import opened Text
  import opened Source
  import opened BlockGrammar
  import opened ListTree

  /** The line is a character repeated, four times at least. */
  predicate AllOf(c: Text, ch: char) {
    4 <= |c| && forall i :: 0 <= i < |c| ==> c[i] == ch
  }

  /** One character other than an equals sign, then three of those. */
  predicate TableLine(c: Text) {
    3 < |c| && c[0] != '=' && CharLen(c[0]) == |c| - 3
    && c[|c| - 3] == '=' && c[|c| - 2] == '=' && c[|c| - 1] == '='
  }

  predicate DelimiterLine(c: Text, k: DelimitedKind) {
    match k
    case OpenBlock => c == "--"
    case TableBlock => TableLine(c)
    case CommentBlock => AllOf(c, '/')
    case ExampleBlock => AllOf(c, '=')
    case Listing => AllOf(c, '-')
    case LiteralText => AllOf(c, '.')
    case Sidebar => AllOf(c, '*')
    case Pass => AllOf(c, '+')
    case Quote => AllOf(c, '_')
  }

  lemma RunIsAll(c: Text, ch: char)
    ensures Repeated(c, ch) <==> AllOf(c, ch)
  {
  }

  lemma TableIs(c: Text)
    ensures c == "|===" || TableDelimiter(c) <==> TableLine(c)
  {
    if 3 < |c| {
      var n := |c|;
      assert c[n - 3..] == [c[n - 3], c[n - 2], c[n - 1]];
      if Ends(c, "===") {
        assert c[n - 3..][0] == '=' && c[n - 3..][1] == '=' && c[n - 3..][2] == '=';
      }
    }
  }

  /** Each delimiter is what its line says, and no line is two. */
  lemma DelimiterIff(c: Text, k: DelimitedKind)
    ensures DelimiterOf(c) == Some(k) <==> DelimiterLine(c, k)
  {
    hide Repeated, TableDelimiter, CharLen, Run;
    RunIsAll(c, '/');
    RunIsAll(c, '=');
    RunIsAll(c, '-');
    RunIsAll(c, '.');
    RunIsAll(c, '*');
    RunIsAll(c, '+');
    RunIsAll(c, '_');
    TableIs(c);
    assert c == "--" ==> |c| == 2;
    assert TableLine(c) ==> c[0] != c[|c| - 1];
  }

  // ---------------------------------------------------------------- list markers

  predicate Digit(c: char) { '0' <= c <= '9' }

  /** Stars or full stops, as many as the depth, then a blank. */
  predicate SymbolForm(c: Text, m: Marker) {
    && 0 < m.depth < |c| && c[0] in "*." && (forall i :: 0 <= i < m.depth ==> c[i] == c[0]) && Blank(c[m.depth])
    && m == Marker(if c[0] == '*' then Unordered else Ordered, m.depth, 0, m.depth, m.depth + 1, None)
  }

  /** Digits, a full stop and a blank. */
  predicate NumberForm(c: Text, m: Marker) {
    && 2 <= m.end < |c| && (forall i :: 0 <= i < m.end - 1 ==> Digit(c[i])) && c[m.end - 1] == '.' && Blank(c[m.end])
    && m == Marker(Ordered, 1, 0, m.end, m.end + 1, None)
  }

  /** A number or a full stop in angle brackets, then a blank. */
  predicate CalloutForm(c: Text, m: Marker) {
    && 2 <= m.end < |c| && c[0] == '<' && c[m.end - 1] == '>' && (forall i :: 0 < i < m.end - 1 ==> c[i] != '>')
    && (c[1..m.end - 1] == "." || Unsigned32(c[1..m.end - 1])) && Blank(c[m.end])
    && m == Marker(Callout, 1, 0, m.end, m.end + 1, None)
  }

  /** Two to four colons, or two semicolons, before a blank or the end, and after something. */
  predicate TermAt(c: Text, i: int, w: int) {
    && 0 < i && 2 <= w <= 4 && i + w <= |c| && (i + w == |c| || Blank(c[i + w]))
    && ((forall j :: i <= j < i + w ==> c[j] == ':') || (w == 2 && c[i] == ';' && c[i + 1] == ';'))
  }

  /** The first of those in the line; a line that starts like another marker is no term. */
  ghost predicate TermForm(c: Text, m: Marker) {
    && c != [] && c[0] !in "*.<" && !Digit(c[0])
    && m.start < m.end && TermAt(c, m.start, m.end - m.start)
    && (forall i, w :: 0 <= i < m.start ==> !TermAt(c, i, w))
    && m == Marker(Description, m.end - m.start - 1, m.start, m.end, if m.end == |c| then m.end
       else m.end + 1, Some(m.start))
  }

  ghost predicate MarkerForm(c: Text, m: Marker) {
    SymbolForm(c, m) || NumberForm(c, m) || CalloutForm(c, m) || TermForm(c, m)
  }

  lemma SymbolIff(c: Text, m: Marker)
    requires c != [] && c[0] in "*."
    ensures SymbolMarker(c) == Some(m) <==> SymbolForm(c, m)
  {
  }

  lemma {:induction false} DigitsAre(c: Text)
    ensures var n := Digits(c); (forall i :: 0 <= i < n ==> Digit(c[i])) && (n < |c| ==> !Digit(c[n]))
  {
    if c != [] && Digit(c[0]) {
      DigitsAre(c[1..]);
      assert forall i :: 1 <= i < |c| ==> c[i] == c[1..][i - 1];
    }
  }

  lemma NumberIff(c: Text, m: Marker)
    requires c != [] && Digit(c[0])
    ensures NumberMarker(c) == Some(m) <==> NumberForm(c, m)
  {
    DigitsAre(c);
    var n := Digits(c);
  }

  lemma CalloutIff(c: Text, m: Marker)
    requires c != [] && c[0] == '<'
    ensures CalloutMarker(c) == Some(m) <==> CalloutForm(c, m)
  {
    hide Unsigned32;
    NextUnitIsFirst(c, 0, '>');
    if CalloutForm(c, m) {
      assert forall i :: 0 <= i < m.end - 1 ==> c[i] != '>';
    }
  }

  lemma WidthIff(c: Text, i: nat, w: nat)
    ensures 0 < i && TermWidth(c, i) == w && 0 < w && (i + w == |c| || Blank(c[i + w])) <==> TermAt(c, i, w)
  {
    PrefixIs(c, i, 2);
    PrefixIs(c, i, 3);
    PrefixIs(c, i, 4);
  }

  lemma PrefixIs(c: Text, i: nat, w: nat)
    requires 2 <= w <= 4
    ensures StartsWith(c, i, "::::"[..w]) <==> i + w <= |c| && forall j :: i <= j < i + w ==> c[j] == ':'
    ensures StartsWith(c, i, ";;") <==> i + 2 <= |c| && c[i] == ';' && c[i + 1] == ';'
  {
    if i + w <= |c| {
      var s := c[i..i + w];
      assert forall j :: i <= j < i + w ==> c[j] == s[j - i];
    }
  }

  lemma TermFits(c: Text)
    ensures forall j, w :: TermAt(c, j, w) ==> 0 < j && 2 <= w && j + w <= |c|
  {
  }

  lemma {:induction false} TermIff(c: Text, i: nat, m: Marker)
    requires i <= |c|
    ensures TermMarker(c, i) == Some(m) <==>
      (&& i <= m.start < m.end && TermAt(c, m.start, m.end - m.start)
       && (forall j, w :: i <= j < m.start ==> !TermAt(c, j, w))
       && m == Marker(Description, m.end - m.start - 1, m.start, m.end,
                      if m.end == |c| then m.end else m.end + 1, Some(m.start)))
    decreases |c| - i
  {
    hide TermAt, TermWidth;
    assert forall j, w :: TermAt(c, j, w) ==> 0 < j && 2 <= w && j + w <= |c| by { TermFits(c); }
    forall w: nat ensures TermAt(c, i, w) <==>
        0 < i && TermWidth(c, i) == w && 0 < w && (i + w == |c| || Blank(c[i + w]))
    {
      WidthIff(c, i, w);
    }
    if i < |c| {
      var w := TermWidth(c, i);
      if TermAt(c, i, w) {
        assert i < m.start ==> !(forall j, w :: i <= j < m.start ==> !TermAt(c, j, w));
        assert m.start == i && TermAt(c, i, m.end - i) ==> m.end == i + w;
      } else {
        assert forall w :: !TermAt(c, i, w);
        TermIff(c, i + 1, m);
      }
    }
  }

  /** A line has a list marker exactly when it has one of the forms, and the marker is that of the form. */
  lemma MarkerIff(c: Text, m: Marker)
    ensures MarkerOf(c) == Some(m) <==> MarkerForm(c, m)
  {
    hide SymbolMarker, NumberMarker, CalloutMarker, TermMarker, TermAt, Unsigned32;
    if c != [] {
      if c[0] in "*." {
        SymbolIff(c, m);
      } else if Digit(c[0]) {
        NumberIff(c, m);
      } else if c[0] == '<' {
        CalloutIff(c, m);
      } else {
        TermIff(c, 0, m);
      }
    }
  }
}
