/** Line contents joined by one kind of newline, and the line table that lexing finds in them. */
module JoinedLines {
  import opened Text
  import opened Source
  import opened Formatter

  /** Lines `s`, each with the newline, and `last` without one. */
  function JoinLines(s: seq<Text>, last: Text, n: Newline): Text {
    if s == [] then last else s[0] + NewlineText(n) + JoinLines(s[1..], last, n)
  }

  lemma JoinedOne(k: Text, rest: seq<Text>, last: Text, n: Newline)
    ensures JoinLines([k] + rest, last, n) == k + NewlineText(n) + JoinLines(rest, last, n)
  {
    assert ([k] + rest)[1..] == rest;
  }

  predicate EndsInReturn(k: Text) { k != [] && k[|k| - 1] == '\r' }

  predicate NoReturns(s: seq<Text>) {
    forall i :: 0 <= i < |s| ==> !EndsInReturn(s[i])
  }

  /** Trimmed line contents of whole characters. */
  ghost predicate Clean(k: Text) {
    Valid(k) && '\n' !in k && KeptEnd(k) == |k|
  }

  ghost predicate AllClean(s: seq<Text>) {
    forall i :: 0 <= i < |s| ==> Clean(s[i])
  }

  // ---------------------------------------------------------------- the line table

  function NewlineKind(n: Newline): LineEnding { if n.LfStyle? then Lf else CrLf }

  /** The line table of joined lines that start at `at`. */
  function Table(s: seq<Text>, last: Text, n: Newline, at: nat): seq<Line> {
    if s == [] then [MakeLine(at, at + |last|, at + |last|, NoEnding)]
    else
      var end := at + |s[0]|;
      [MakeLine(at, end, end + EndingLength(NewlineKind(n)), NewlineKind(n))]
        + Table(s[1..], last, n, end + EndingLength(NewlineKind(n)))
  }

  /** Lexing joined clean lines gives them back, unless a lone carriage return meets a line feed. */
  lemma {:induction false} TableIsLexed(v: Text, s: seq<Text>, last: Text, n: Newline, at: nat)
    requires at <= |v| && v[at..] == JoinLines(s, last, n) && AllClean(s) && Clean(last)
      && (n.LfStyle? ==> NoReturns(s))
    ensures LinesOk(v, Table(s, last, n, at), at)
    decreases |s|
  {
    hide Valid, KeptEnd, LineOk, JoinLines, Table;
    if s != [] {
      var end := at + |s[0]| + |NewlineText(n)|;
      assert Clean(s[0]);
      FirstIsThere(v, s, last, n, at);
      FirstLineOk(v, s[0], n, at, MakeLine(at, at + |s[0]|, end, NewlineKind(n)));
      TableIsLexed(v, s[1..], last, n, end);
      TableStep(s, last, n, at);
    } else {
      NoneJoined(last, n);
      BareLineOk(v, last, at);
      EmptyTable(last, n, at);
    }
  }

  lemma NoneJoined(last: Text, n: Newline)
    ensures JoinLines([], last, n) == last
  {
  }

  lemma EmptyTable(last: Text, n: Newline, at: nat)
    ensures Table([], last, n, at) == [MakeLine(at, at + |last|, at + |last|, NoEnding)]
  {
  }

  lemma TableStep(s: seq<Text>, last: Text, n: Newline, at: nat)
    requires s != []
    ensures var end := at + |s[0]| + |NewlineText(n)|; var table := Table(s, last, n, at);
      && table != [] && table[0] == MakeLine(at, at + |s[0]|, end, NewlineKind(n))
      && table[1..] == Table(s[1..], last, n, end)
  {
  }

  lemma BareLineOk(v: Text, last: Text, at: nat)
    requires at <= |v| && v[at..] == last && '\n' !in last
    ensures at + |last| == |v| && LineOk(v, MakeLine(at, |v|, |v|, NoEnding))
  {
    forall j | at <= j < |v| ensures EndingAt(v, j).NoEnding? {
      assert v[j] == last[j - at];
      assert j + 1 < |v| ==> v[j + 1] == last[j + 1 - at];
    }
  }

  lemma FirstIsThere(v: Text, s: seq<Text>, last: Text, n: Newline, at: nat)
    requires at <= |v| && v[at..] == JoinLines(s, last, n) && s != []
    ensures var k, nl := s[0], NewlineText(n);
      && at + |k| + |nl| <= |v| && v[at + |k| + |nl|..] == JoinLines(s[1..], last, n)
      && v[at..at + |k|] == k && v[at + |k|..at + |k| + |nl|] == nl
  {
    var k, nl := s[0], NewlineText(n);
    var rest := JoinLines(s[1..], last, n);
    assert v[at..] == k + nl + rest;
    SliceOfRest(v, at, 0, |k|);
    SliceOfRest(v, at, |k|, |k| + |nl|);
    SliceOfRest(v, at, |k| + |nl|, |v| - at);
    assert (k + nl + rest)[0..|k|] == k;
    assert (k + nl + rest)[|k|..|k| + |nl|] == nl;
    assert (k + nl + rest)[|k| + |nl|..] == rest;
  }

  lemma SliceOfRest(v: Text, at: nat, i: nat, j: nat)
    requires at <= |v| && i <= j <= |v| - at
    ensures v[at..][i..j] == v[at + i..at + j]
  {
  }

  lemma FirstLineOk(v: Text, k: Text, n: Newline, at: nat, l: Line)
    requires var nl := NewlineText(n);
      at + |k| + |nl| <= |v| && l == MakeLine(at, at + |k|, at + |k| + |nl|, NewlineKind(n))
    requires v[at..at + |k|] == k && v[at + |k|..at + |k| + |NewlineText(n)|] == NewlineText(n)
    requires '\n' !in k && (n.LfStyle? ==> !EndsInReturn(k))
    ensures LineOk(v, l)
  {
    forall j | at <= j < at + |k| ensures v[j] == k[j - at] {
      assert v[j] == v[at..at + |k|][j - at];
    }
    forall j | at + |k| <= j < at + |k| + |NewlineText(n)| ensures v[j] == NewlineText(n)[j - at - |k|] {
      assert v[j] == v[at + |k|..at + |k| + |NewlineText(n)|][j - at - |k|];
    }
    forall j | at <= j < at + |k| ensures EndingAt(v, j).NoEnding? {
      assert k[j - at] in k && v[j] == k[j - at];
      if j + 1 < at + |k| {
        assert k[j + 1 - at] in k && v[j + 1] == k[j + 1 - at];
      }
    }
    assert v[at + |k|] == NewlineText(n)[0];
    if n.CrLfStyle? {
      assert v[at + |k| + 1] == NewlineText(n)[1];
    }
  }

  lemma {:induction false} TableAt(s: seq<Text>, last: Text, n: Newline, at: nat, i: nat)
    requires i <= |s|
    ensures |Table(s, last, n, at)| == |s| + 1
    ensures var l := Table(s, last, n, at)[i];
      if i < |s| then l.kind == NewlineKind(n) && l.full.start < l.full.end
      else l.kind == NoEnding && l.full.end - l.full.start == |last|
    decreases |s|
  {
    if s != [] {
      TableAt(s[1..], last, n, at + |s[0]| + EndingLength(NewlineKind(n)), if i == 0 then 0 else i - 1);
    }
  }

  lemma {:induction false} TableContent(v: Text, s: seq<Text>, last: Text, n: Newline, at: nat, i: nat)
    requires at <= |v| && v[at..] == JoinLines(s, last, n) && i <= |s|
    ensures |Table(s, last, n, at)| == |s| + 1
    ensures var l := Table(s, last, n, at)[i];
      l.content.end <= |v| && v[l.content.start..l.content.end] == if i < |s| then s[i] else last
    decreases |s|
  {
    TableAt(s, last, n, at, i);
    if s != [] {
      FirstIsThere(v, s, last, n, at);
      if i > 0 {
        TableContent(v, s[1..], last, n, at + |s[0]| + |NewlineText(n)|, i - 1);
      }
    }
  }

  lemma JoinedTable(s: seq<Text>, last: Text, n: Newline)
    requires AllClean(s) && Clean(last) && (n.LfStyle? ==> NoReturns(s))
    ensures var w := JoinLines(s, last, n); Valid(w) && Lines(w) == Table(s, last, n, 0)
  {
    hide KeptEnd, Valid, JoinLines;
    var w := JoinLines(s, last, n);
    assert w[0..] == w;
    JoinedIsValid(s, last, n);
    TableIsLexed(w, s, last, n, 0);
    LinesUnique(w, Table(s, last, n, 0), 0, 0);
  }

  // ---------------------------------------------------------------- whole characters

  lemma {:induction false} JoinedIsValid(s: seq<Text>, last: Text, n: Newline)
    requires AllClean(s) && Clean(last)
    ensures Valid(JoinLines(s, last, n))
    decreases |s|
  {
    hide KeptEnd, Valid;
    if s != [] {
      assert Clean(s[0]);
      JoinedIsValid(s[1..], last, n);
      NewlineIsValid(n);
      ValidAppend(s[0], NewlineText(n));
      ValidAppend(s[0] + NewlineText(n), JoinLines(s[1..], last, n));
    }
  }

  lemma NewlineIsValid(n: Newline)
    ensures Valid(NewlineText(n))
  {
    var nl := NewlineText(n);
    forall i | 0 <= i < |nl| ensures UnitOk(nl, i) {
    }
  }

  lemma ValidAppend(a: Text, b: Text)
    requires Valid(a) && Valid(b)
    ensures Valid(a + b)
  {
    var v := a + b;
    forall i | 0 <= i < |v| ensures UnitOk(v, i) {
      if i < |a| {
        assert UnitOk(a, i);
        if !Continuation(a[i]) {
          var n := CharLen(a[i]);
          forall j | i < j < i + n ensures Continuation(v[j]) {
            assert v[j] == a[j];
          }
          BoundaryAppend(a, b, i + n);
        }
      } else {
        assert UnitOk(b, i - |a|);
        if !Continuation(b[i - |a|]) {
          var n := CharLen(b[i - |a|]);
          forall j | i < j < i + n ensures Continuation(v[j]) {
            assert v[j] == b[j - |a|];
          }
        }
      }
    }
    BoundaryAppend(a, b, 0);
  }

  lemma BoundaryAppend(a: Text, b: Text, i: nat)
    requires Boundary(a, i) && Boundary(b, 0) && i <= |a|
    ensures Boundary(a + b, i)
  {
    if i == |a| && b != [] {
      assert (a + b)[i] == b[0];
    }
  }

  // ---------------------------------------------------------------- a lone carriage return

  /** A carriage return before a line feed makes a line that ends in both. */
  lemma {:induction false} ReturnEndsLine(v: Text, lines: seq<Line>, from: nat, p: nat) returns (i: nat)
    requires LinesOk(v, lines, from) && from <= p && p + 1 < |v| && v[p] == '\r' && v[p + 1] == '\n'
    ensures i < |lines| && lines[i].kind.CrLf?
    decreases |lines|
  {
    var l := lines[0];
    assert EndingAt(v, p).CrLf?;
    if l.kind.CrLf? {
      return 0;
    }
    assert l.full.end <= p;
    i := ReturnEndsLine(v, lines[1..], l.full.end, p);
    i := i + 1;
  }

  lemma {:induction false} ReturnMeets(s: seq<Text>, last: Text, i: nat) returns (p: nat)
    requires i < |s| && EndsInReturn(s[i])
    ensures var w := JoinLines(s, last, LfStyle); p + 1 < |w| && w[p] == '\r' && w[p + 1] == '\n'
    decreases |s|
  {
    var rest := JoinLines(s[1..], last, LfStyle);
    var w := s[0] + "\n" + rest;
    if i == 0 {
      p := |s[0]| - 1;
    } else {
      var q := ReturnMeets(s[1..], last, i - 1);
      p := |s[0]| + 1 + q;
      assert w[p] == rest[q] && w[p + 1] == rest[q + 1];
    }
  }
}
