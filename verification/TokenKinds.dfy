/** What each token of a source is, told from the characters of its line. */
module TokenKinds {
  import opened Text
  import opened Source

  /** Two slashes with nothing but blanks before them in the line start a comment. */
  ghost predicate CommentFrom(v: Text, l: Line, a: int) {
    && l.content.start <= a && a + 2 <= l.content.end <= |v| && v[a] == '/' && v[a + 1] == '/'
    && forall j :: l.content.start <= j < a ==> Blank(v[j])
  }

  ghost function KindAt(v: Text, l: Line, i: nat): TokenKind
    requires i < |v|
  {
    if exists a :: CommentFrom(v, l, a) && a <= i then Comment else if Blank(v[i]) then Whitespace else TextToken
  }

  /** The ending of the line, or all of a run of one kind in it. */
  ghost predicate TokenFits(v: Text, l: Line, t: Token) {
    || (t == Token(EndingToken(l.kind), l.ending) && !l.kind.NoEnding?)
    || (&& l.content.start <= t.range.start < t.range.end <= l.content.end <= |v|
        && (forall i :: t.range.start <= i < t.range.end ==> KindAt(v, l, i) == t.kind)
        && (l.content.start < t.range.start ==> KindAt(v, l, t.range.start - 1) != t.kind)
        && (t.range.end < l.content.end ==> KindAt(v, l, t.range.end) != t.kind))
  }

  lemma CommentStart(v: Text, l: Line)
    requires l.content.end <= |v|
    ensures var text := LeadingBlanks(v, l.content.start, l.content.end);
      forall a :: CommentFrom(v, l, a) ==> a == text
    ensures var text := LeadingBlanks(v, l.content.start, l.content.end);
      CommentFrom(v, l, text) <==> text + 2 <= l.content.end && v[text] == '/' && v[text + 1] == '/'
  {
    var text := LeadingBlanks(v, l.content.start, l.content.end);
    forall a | CommentFrom(v, l, a) ensures a == text {
    }
  }

  lemma PlainKinds(v: Text, l: Line)
    requires l.content.end <= |v| && forall a :: !CommentFrom(v, l, a)
    ensures forall i :: 0 <= i < |v| ==> KindAt(v, l, i) == KindOf(v[i])
  {
  }

  lemma {:induction false} RunsFit(v: Text, l: Line, run: nat, i: nat)
    requires l.content.start <= run < i <= l.content.end <= |v| && forall a :: !CommentFrom(v, l, a)
    requires forall j :: run <= j < i ==> KindOf(v[j]) == KindOf(v[run])
    requires l.content.start < run ==> KindOf(v[run - 1]) != KindOf(v[run])
    ensures forall t :: t in Runs(v, run, i, l.content.end) ==> TokenFits(v, l, t)
    decreases l.content.end - i
  {
    hide CommentFrom, KindAt;
    PlainKinds(v, l);
    if i < l.content.end {
      if KindOf(v[i]) == KindOf(v[run]) {
        RunsFit(v, l, run, i + 1);
      } else {
        RunsFit(v, l, i, i + 1);
      }
    }
  }

  lemma CommentFits(v: Text, l: Line)
    requires l.content.end <= |v|
    requires CommentFrom(v, l, LeadingBlanks(v, l.content.start, l.content.end))
    ensures forall t :: t in ContentTokens(v, l.content.start, l.content.end) ==> TokenFits(v, l, t)
  {
    var text := LeadingBlanks(v, l.content.start, l.content.end);
    CommentStart(v, l);
    assert forall i :: l.content.start <= i < text ==> KindAt(v, l, i) == Whitespace;
    assert forall i :: text <= i < |v| ==> KindAt(v, l, i) == Comment;
  }

  /** Every token of a line is its ending, or a whole run of blanks, of text, or the comment in it. */
  lemma LineTokensFit(v: Text, l: Line)
    requires LineOk(v, l)
    ensures forall t :: t in LineTokens(v, l) ==> TokenFits(v, l, t)
  {
    hide Runs, TokenFits, CommentFrom;
    var start, end := l.content.start, l.content.end;
    var text := LeadingBlanks(v, start, end);
    CommentStart(v, l);
    if CommentFrom(v, l, text) {
      CommentFits(v, l);
    } else if start < end {
      RunsFit(v, l, start, start + 1);
    }
    if !l.kind.NoEnding? {
      assert TokenFits(v, l, Token(EndingToken(l.kind), l.ending)) by { EndingFits(v, l); }
    }
  }

  lemma EndingFits(v: Text, l: Line)
    requires !l.kind.NoEnding?
    ensures TokenFits(v, l, Token(EndingToken(l.kind), l.ending))
  {
  }

  /** Each token belongs to a line. As the tokens follow each other, they are all of its runs. */
  lemma {:induction false} TokensFit(v: Text, lines: seq<Line>, from: nat)
    requires LinesOk(v, lines, from)
    ensures forall t :: t in TokensOf(v, lines, from) ==> exists l :: l in lines && TokenFits(v, l, t)
    decreases |lines|
  {
    hide TokenFits, LineTokens, LineOk;
    var l := lines[0];
    assert TokensOf(v, lines, from)
      == LineTokens(v, l) + if l.kind.NoEnding? then [] else TokensOf(v, lines[1..], l.full.end);
    LineTokensFit(v, l);
    if !l.kind.NoEnding? {
      TokensFit(v, lines[1..], l.full.end);
    }
    forall t | t in TokensOf(v, lines, from) ensures exists x :: x in lines && TokenFits(v, x, t) {
      if t in LineTokens(v, l) {
        assert l in lines;
      } else {
        var x :| x in lines[1..] && TokenFits(v, x, t);
        assert x in lines;
      }
    }
  }
}
