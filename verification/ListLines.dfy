/** Which lines make which items of a list. */
module ListLines {
  import opened Text
  import opened Source
  import opened BlockGrammar
  import opened BlockModel
  import opened BlockState
  import opened BlockParser
  import opened Delimiter
  import opened ListTree
  import opened ItemTree
  import S = Syntax

  // ---------------------------------------------------------------- one item

  /** A list goes on up to a line that starts no item. */
  predicate ListEnds(c: Context, b: nat, end: nat) {
    b < end && b < LineCount(c) ==> MarkerOf(Content(c, b)).None?
  }

  /** A line that carries on the text of an item: one without any form, or an indented one. */
  ghost predicate TextLine(c: Context, j: nat)
    requires j < LineCount(c)
  {
    var t := Content(c, j);
    t != "+" && MarkerOf(t).None?
    && (FirstForm(c.grammar, t, None, ParagraphText) || FirstForm(c.grammar, t, None, LiteralParagraph))
  }

  /** Lines `[a, p)` are all that carry on a text. */
  ghost predicate TextLines(c: Context, a: nat, p: nat, end: nat) {
    && a <= p <= end <= LineCount(c)
    && (forall j :: a <= j < p ==> TextLine(c, j)) && (p < end ==> !TextLine(c, p))
  }

  /** Where the text of an item starts: behind the marker and the box of a task. */
  function TextStart(c: Context, a: nat): nat
    requires a < LineCount(c) && MarkerOf(Content(c, a)).Some?
  {
    var m := MarkerOf(Content(c, a)).value;
    LineAt(c, a).content.start + m.text + if m.kind == Unordered && Checkbox(Content(c, a), m.text) then 4 else 0
  }

  /** The item with its marker on line `a` and its text up to line `p`. A text that is not on the line
      of the marker starts on the next one. */
  ghost predicate Reads(c: Context, f: ListItem, a: nat, p: nat, end: nat)
    requires a < p <= end <= LineCount(c) && MarkerOf(Content(c, a)).Some?
  {
    var m, line, x := MarkerOf(Content(c, a)).value, LineAt(c, a).content, f.content;
    && f.kind == m.kind && f.depth == Min(m.depth, Max(c.maxListDepth, 1))
    && x.marker == Range(line.start + m.start, line.start + m.end)
    && x.terms == (if m.kind == Description then [Range(line.start, line.start + m.start)] else [])
    && (if m.kind == Callout then p == a + 1 else TextLines(c, a + 1, p, end))
    && x.text.end == LineAt(c, p - 1).content.end
    && x.text.start
         == if TextStart(c, a) < line.end || p == a + 1 then TextStart(c, a) else LineAt(c, a + 1).content.start
  }

  // ---------------------------------------------------------------- attached blocks

  /** The block behind the metadata lines from line `i` on; when a blank line or the end follows them
      they are no metadata. */
  ghost predicate BehindMetadata(c: Context, i: nat, j: nat, end: nat) {
    && i <= j < end <= LineCount(c) && (forall l :: i <= l < j ==> MetadataLine(Content(c, l)))
    && (MetadataLine(Content(c, j)) || AllBlank(Content(c, j)) ==> j == i && MetadataOnly(c, i, end))
  }

  /** Metadata lines up to a blank line or the end. */
  ghost predicate MetadataOnly(c: Context, i: nat, end: nat) {
    exists r :: i <= r <= end && MetadataUpTo(c, i, r, end)
  }

  ghost predicate MetadataUpTo(c: Context, i: nat, r: nat, end: nat) {
    && i <= r <= end <= LineCount(c) && (forall l :: i <= l < r ==> MetadataLine(Content(c, l)))
    && (r < end ==> AllBlank(Content(c, r)))
  }

  predicate PlusLine(c: Context, p: nat) {
    p < LineCount(c) && Content(c, p) == "+"
  }

  /** Something stands below a line with a plus sign. */
  predicate Follows(c: Context, p: nat, end: nat) {
    p + 1 < end <= LineCount(c) && !AllBlank(Content(c, p + 1))
  }

  /** Lines `[p, k)` are blocks, each behind a line with a plus sign. */
  ghost predicate AttachedOver(c: Context, p: nat, k: nat, end: nat)
    decreases k - p, 1
  {
    && p <= k <= end <= LineCount(c)
    && if p == k then PlusLine(c, p) ==> !Follows(c, p, end)
       else PlusLine(c, p) && Follows(c, p, end)
            && exists q :: p + 1 < q <= k && AttachedBlock(c, p + 1, q, end) && AttachedOver(c, q, k, end)
  }

  /** The block, with its metadata, is on lines `[i, q)`: a delimited block, a list, or one line. */
  ghost predicate AttachedBlock(c: Context, i: nat, q: nat, end: nat)
    decreases q - i, 4
  {
    exists j :: i <= j < q <= end && BehindMetadata(c, i, j, end) && AttachedLines(c, j, q, end)
  }

  ghost predicate AttachedLines(c: Context, j: nat, q: nat, end: nat)
    requires j < q <= end <= LineCount(c)
    decreases q - j, 3
  {
    var t := Content(c, j);
    if DelimiterOf(t).Some? then q == BodyOf(c, j, t, end).next
    else if MarkerOf(t).Some? then exists s :: ItemsOver(c, s, j, q, end) && ListEnds(c, q, end)
    else q == j + 1
  }

  // ---------------------------------------------------------------- items

  ghost predicate ItemOver(c: Context, f: ListItem, a: nat, k: nat, end: nat)
    decreases k - a, 1
  {
    && a < k <= end <= LineCount(c) && MarkerOf(Content(c, a)).Some? && f.range == Span(c, a, k)
    && exists p :: a < p <= k && Reads(c, f, a, p, end) && AttachedOver(c, p, k, end)
  }

  /** The items on lines `[a, b)`. */
  ghost predicate ItemsOver(c: Context, s: seq<ListItem>, a: nat, b: nat, end: nat)
    decreases b - a, 2
  {
    && a <= b <= end <= LineCount(c)
    && if s == [] then a == b
       else exists k :: a < k <= b && ItemOver(c, s[0], a, k, end) && ItemsOver(c, s[1..], k, b, end)
  }

  // ---------------------------------------------------------------- shared texts

  function AllTerms(s: seq<ListItem>): seq<TextRange> {
    if s == [] then [] else AllTerms(s[..|s| - 1]) + s[|s| - 1].content.terms
  }

  /** A run of terms, all but the last one without a text, becomes one item with all terms. */
  ghost predicate Shares(s: seq<ListItem>, r: seq<ListItem>) {
    if s == [] then r == []
    else
      && r != []
      && exists k :: 0 < k <= |s| && SharesFirst(s, k, r[0]) && Shares(s[k..], r[1..])
  }

  ghost predicate SharesFirst(s: seq<ListItem>, k: nat, x: ListItem)
    requires 0 < k <= |s|
  {
    && (forall i :: 0 <= i < k - 1 ==> Combines(s[i], s[i + 1])) && (k < |s| ==> !Combines(s[k - 1], s[k]))
    && s[0].range.start <= s[k - 1].range.end
    && x == s[k - 1].(range := Range(s[0].range.start, s[k - 1].range.end),
                      content := s[k - 1].content.(terms := AllTerms(s[..k])))
  }

  /** What a list over lines `[a, b)` holds: the tree of its items. */
  ghost predicate ListHolds(c: Context, nodes: seq<S.Node>, a: nat, b: nat, end: nat) {
    exists s: seq<ListItem>, r: seq<ListItem> ::
      ItemsOver(c, s, a, b, end) && Shares(s, r) && nodes == TreeOf(c, r, 0, |r|)
  }

  // ---------------------------------------------------------------- the parser finds them

  lemma TextLineIs(c: Context, j: nat)
    requires j < LineCount(c)
    ensures var next := if j + 1 < LineCount(c) then Some(Content(c, j + 1)) else None;
      TextLine(c, j)
      <==> (Content(c, j) != "+" && MarkerOf(Content(c, j)).None?
            && Classify(c.grammar, Content(c, j), next, false) in {ParagraphText, LiteralParagraph})
  {
    hide Ready, Content, MarkerOf, Classify, FirstForm;
    var next := if j + 1 < LineCount(c) then Some(Content(c, j + 1)) else None;
    PlainClass(c.grammar, Content(c, j), next, ParagraphText);
    PlainClass(c.grammar, Content(c, j), next, LiteralParagraph);
  }

  /** For lines without metadata the first form is the class. */
  lemma PlainClass(g: Grammar, t: Text, next: Option<Text>, k: LineClass)
    requires k == ParagraphText || k == LiteralParagraph
    ensures FirstForm(g, t, None, k) <==> Classify(g, t, next, false) == k
  {
    hide Classify, DelimiterOf, AnchorLine, BlockTitle, BlockAttributes, Starts, AllBlank, AttributeLine, StartsBlank,
      MarkerOf, UnsupportedForm;
    ClassIff(g, t, next, false, k);
    assert FirstForm(g, t, None, k) ==> !HasFormOf(g, t, None, Metadata);
    assert Classify(g, t, next, false) == k ==> !HasFormOf(g, t, next, Metadata);
    forall j | j != Math ensures HasFormOf(g, t, None, j) == HasFormOf(g, t, next, j) {
    }
  }

  lemma {:induction false} PrincipalLines(c: Context, i: nat, end: nat)
    requires i <= end <= LineCount(c)
    ensures TextLines(c, i, PrincipalEnd(c, i, end), end)
    decreases end - i
  {
    hide Ready, Content, MarkerOf, Classify, TextLine;
    if i < end {
      TextLineIs(c, i);
      if PrincipalEnd(c, i, end) != i {
        PrincipalLines(c, i + 1, end);
      }
    }
  }

  lemma TermIsDescription(t: Text)
    requires MarkerOf(t).Some?
    ensures var m := MarkerOf(t).value; m.term == if m.kind == Description then Some(m.start) else None
  {
    if t[0] !in "*.<" && !('0' <= t[0] <= '9') {
      TermMarkerIs(t, 0);
    }
  }

  lemma {:induction false} TermMarkerIs(t: Text, i: nat)
    requires i <= |t|
    ensures TermMarker(t, i).Some? ==>
      var m := TermMarker(t, i).value; m.kind == Description && m.term == Some(m.start)
    decreases |t| - i
  {
    hide TermWidth;
    if i < |t| {
      TermMarkerIs(t, i + 1);
    }
  }

  /** The item that the parser reads, before the blocks attached to it. */
  lemma PrincipalReads(c: Context, i: nat, end: nat)
    requires i < end <= LineCount(c) && MarkerOf(Content(c, i)).Some? && PrincipalItem(c, i, end).Ok?
    ensures var (f, next) := PrincipalItem(c, i, end).value; Reads(c, f, i, next, end)
  {
    hide Ready, Content, MarkerOf, TextLine, PrincipalEnd, Checkbox, LineAt, TextOf;
    TermIsDescription(Content(c, i));
    PrincipalLines(c, i + 1, end);
  }

  lemma ReadsWider(c: Context, f: ListItem, a: nat, p: nat, end: nat, range: TextRange)
    requires a < p <= end <= LineCount(c) && MarkerOf(Content(c, a)).Some? && Reads(c, f, a, p, end)
    ensures Reads(c, f.(range := range), a, p, end)
  {
    hide Ready, Content, MarkerOf, TextLines, TextStart, LineAt;
  }

  lemma {:induction false} MetadataIs(c: Context, i: nat, end: nat)
    requires i <= end <= LineCount(c)
    ensures var r := MetadataRun(c, i, end);
      && (forall l :: i <= l < r ==> MetadataLine(Content(c, l)))
      && (r < end && !AllBlank(Content(c, r)) ==> !MetadataLine(Content(c, r)))
    decreases end - i
  {
    hide Ready, Content, MetadataLine, AllBlank;
    if i < MetadataRun(c, i, end) {
      MetadataIs(c, i + 1, end);
    }
  }

  lemma StartIsBehind(c: Context, i: nat, end: nat)
    requires i < end <= LineCount(c) && !AllBlank(Content(c, i))
    ensures BehindMetadata(c, i, ContinuationStart(c, i, end), end)
  {
    hide Ready, Content, MetadataLine, AllBlank, MetadataRun;
    MetadataIs(c, i, end);
    var r := MetadataRun(c, i, end);
    if !(r < end && !AllBlank(Content(c, r))) {
      assert MetadataUpTo(c, i, r, end);
    }
  }

  // ---------------------------------------------------------------- steps of the relations

  lemma ItemsAppend(c: Context, f: ListItem, s: seq<ListItem>, a: nat, k: nat, b: nat, end: nat)
    requires a < k <= b && ItemOver(c, f, a, k, end) && ItemsOver(c, s, k, b, end)
    ensures ItemsOver(c, [f] + s, a, b, end)
  {
    hide Ready, ItemOver;
    assert ([f] + s)[0] == f && ([f] + s)[1..] == s;
  }

  lemma NoItems(c: Context, a: nat, end: nat)
    requires a <= end <= LineCount(c)
    ensures ItemsOver(c, [], a, a, end)
  {
    hide Ready, ItemOver;
  }

  lemma AttachedStep(c: Context, p: nat, j: nat, q: nat, k: nat, end: nat)
    requires PlusLine(c, p) && Follows(c, p, end) && p < j < q <= end && BehindMetadata(c, p + 1, j, end)
    requires AttachedLines(c, j, q, end) && AttachedOver(c, q, k, end)
    ensures AttachedOver(c, p, k, end)
  {
    hide Ready, PlusLine, Follows, BehindMetadata, AttachedLines;
    assert q <= k;
    assert AttachedBlock(c, p + 1, q, end);
  }

  lemma AttachedBody(c: Context, j: nat, end: nat)
    requires j < end <= LineCount(c) && DelimiterOf(Content(c, j)).Some?
    ensures AttachedLines(c, j, BodyOf(c, j, Content(c, j), end).next, end)
  {
    hide Ready, Content, DelimiterOf, BodyOf;
  }

  lemma AttachedList(c: Context, s: seq<ListItem>, j: nat, q: nat, end: nat)
    requires j < q <= end <= LineCount(c) && ItemsOver(c, s, j, q, end) && ListEnds(c, q, end)
    requires DelimiterOf(Content(c, j)).None? && MarkerOf(Content(c, j)).Some?
    ensures AttachedLines(c, j, q, end)
  {
    hide Ready, Content, DelimiterOf, MarkerOf, ItemsOver, ListEnds;
  }

  lemma AttachedLine(c: Context, j: nat, end: nat)
    requires j < end <= LineCount(c) && DelimiterOf(Content(c, j)).None? && MarkerOf(Content(c, j)).None?
    ensures AttachedLines(c, j, j + 1, end)
  {
    hide Ready, Content, DelimiterOf, MarkerOf;
  }

  lemma NothingAttached(c: Context, p: nat, end: nat)
    requires p <= end <= LineCount(c) && (PlusLine(c, p) ==> !Follows(c, p, end))
    ensures AttachedOver(c, p, p, end)
  {
    hide Ready, PlusLine, Follows;
  }

  lemma ItemIs(c: Context, f: ListItem, a: nat, p: nat, k: nat, end: nat)
    requires a < p <= k <= end <= LineCount(c) && MarkerOf(Content(c, a)).Some? && Reads(c, f, a, p, end)
    requires AttachedOver(c, p, k, end)
    ensures ItemOver(c, f.(range := Span(c, a, k)), a, k, end)
  {
    hide Ready, Content, MarkerOf, Reads, AttachedOver, Span;
    ReadsWider(c, f, a, p, end, Span(c, a, k));
  }

  // ---------------------------------------------------------------- merging terms

  /** Terms of a run of items. */
  lemma {:induction false} TermsOfRest(s: seq<ListItem>)
    requires s != []
    ensures AllTerms(s) == s[0].content.terms + AllTerms(s[1..])
    decreases |s|
  {
    if |s| == 1 {
      assert s[..0] == [] == s[1..];
    } else {
      var n := |s|;
      var mid, a, z := AllTerms(s[1..n - 1]), s[0].content.terms, s[n - 1].content.terms;
      TermsOfRest(s[..n - 1]);
      assert s[..n - 1][1..] == s[1..n - 1] == s[1..][..n - 2];
      assert a + mid + z == a + (mid + z);
    }
  }

  /** Merging gives one item for each run of terms. */
  lemma {:induction false} MergeShares(s: seq<ListItem>)
    requires Ascending(s)
    ensures Shares(s, MergeTerms(s))
    decreases |s|
  {
    hide Combines, SharesFirst, Ascending, Combined;
    if s == [] {
    } else if |s| == 1 || !Combines(s[0], s[1]) {
      var rest := s[1..];
      assert Ascending(rest) && MergeTerms(s) == [s[0]] + MergeTerms(rest) by { MergeOne(s); }
      MergeShares(rest);
      RunOfOne(s);
      assert MergeTerms(s)[1..] == MergeTerms(rest);
    } else {
      MergeTwo(s);
      var t := [Combined(s[0], s[1])] + s[2..];
      MergeShares(t);
      var r := MergeTerms(t);
      var k :| 0 < k <= |t| && SharesFirst(t, k, r[0]) && Shares(t[k..], r[1..]);
      RunGrows(s, t, k, r[0]);
      assert t[k..] == s[k + 1..];
    }
  }

  lemma MergeOne(s: seq<ListItem>)
    requires Ascending(s) && s != [] && (|s| == 1 || !Combines(s[0], s[1]))
    ensures Ascending(s[1..]) && MergeTerms(s) == [s[0]] + MergeTerms(s[1..])
  {
    hide Combines;
    if |s| == 1 {
      assert s[1..] == [] && s == [s[0]];
    }
  }

  lemma MergeTwo(s: seq<ListItem>)
    requires Ascending(s) && 2 <= |s| && Combines(s[0], s[1])
    ensures s[0].range.start <= s[1].range.end
    ensures var t := [Combined(s[0], s[1])] + s[2..]; Ascending(t) && MergeTerms(s) == MergeTerms(t)
  {
    hide Combines;
    CombinedAscends(s);
  }

  lemma RunOfOne(s: seq<ListItem>)
    requires s != [] && (|s| == 1 || !Combines(s[0], s[1]))
    ensures SharesFirst(s, 1, s[0])
  {
    hide Combines;
    assert s[..1] == [s[0]] && s[..1][..0] == [];
    assert AllTerms(s[..1]) == [] + s[0].content.terms == s[0].content.terms;
  }

  /** A run of the items after two are combined is one of all the items, one longer. */
  lemma RunGrows(s: seq<ListItem>, t: seq<ListItem>, k: nat, x: ListItem)
    requires 2 <= |s| && Combines(s[0], s[1]) && s[0].range.start <= s[1].range.end
    requires t == [Combined(s[0], s[1])] + s[2..] && 0 < k <= |t| && SharesFirst(t, k, x)
    ensures SharesFirst(s, k + 1, x)
  {
    hide AllTerms;
    TermsOfRest(s[..k + 1]);
    TermsOfRest(s[..k + 1][1..]);
    TermsOfRest(t[..k]);
    assert s[..k + 1][1..][1..] == t[..k][1..];
    var a, b, rest := s[0].content.terms, s[1].content.terms, AllTerms(t[..k][1..]);
    assert a + (b + rest) == (a + b) + rest;
    assert forall i :: 1 <= i < |t| ==> t[i] == s[i + 1];
    forall i | 0 <= i < k ensures Combines(s[i], s[i + 1]) {
      if i > 0 {
        assert Combines(t[i - 1], t[i]);
      }
    }
  }
}
