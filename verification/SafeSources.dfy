/** Sources in which every hard break lands, read off their units. */
module SafeSources {
  import opened Text
  import opened InlineModel
  import opened InlineNodes
  import opened BlockModel
  import opened Documents
  import S = Syntax

  /** No hard break directly follows a character outside ASCII. */
  predicate NoWideBreak(v: Text) {
    forall p :: 0 < p < |v| && BreakAt(v, p) ==> v[p - 1] < '\U{80}'
  }

  /** The value of a text is what its source ends in. */
  lemma ValueIsSlice(v: Text, base: nat, r: TextRange, value: Text)
    requires Faithful(PlainText(r, value), v, base)
    ensures base <= r.start <= r.end <= base + |v|
    ensures |value| <= r.end - r.start <= |value| + 2 && (r.end - r.start == |value| + 2 ==> |value| == 2)
    ensures v[r.start - base..r.end - base][r.end - r.start - |value|..] == value
  {
    hide Boundary;
  }

  lemma SliceEnds(doc: Text, v: Text, base: nat, r: TextRange, n: nat)
    requires base + |v| <= |doc| && v == doc[base..base + |v|]
    requires base <= r.start <= r.end <= base + |v| && n <= r.end - r.start
    ensures v[r.start - base..r.end - base][r.end - r.start - n..] == doc[r.end - n..r.end]
  {
    SliceOfSlice(doc, base, base + |v|, r.start - base, r.end - base);
    SliceOfSlice(doc, r.start, r.end, r.end - r.start - n, r.end - r.start);
  }

  /** The value of a text is the end of its source. */
  lemma ValueIsSource(doc: Text, v: Text, base: nat, r: TextRange, value: Text)
    requires Located(doc, v, base) && Faithful(PlainText(r, value), v, base)
    ensures |value| <= r.end - r.start <= |value| + 2 && r.end <= |doc| && doc[r.end - |value|..r.end] == value
    ensures r.end - r.start == |value| + 2 ==> |value| == 2
  {
    hide Valid, Boundary, Faithful;
    ValueIsSlice(v, base, r, value);
    SliceEnds(doc, v, base, r, |value|);
  }

  /** A break in a text is a break in the source. */
  lemma BreakInSource(doc: Text, start: nat, end: nat, m: nat)
    requires start <= end <= |doc| && BreakAt(doc[start..end], m)
    ensures start + m < end && BreakAt(doc, start + m) && (0 < m ==> doc[start + m - 1] == doc[start..end][m - 1])
  {
    var n := if StartsWith(doc[start..end], m, " +\n") then 3 else 4;
    SliceOfSlice(doc, start, end, m, m + n);
  }

  lemma {:induction false} TextLands(doc: Text, v: Text, base: nat, r: TextRange, value: Text, i: nat)
    requires Located(doc, v, base) && Faithful(PlainText(r, value), v, base) && NoWideBreak(doc) && i <= |value|
    ensures |value| <= r.end - r.start && BreaksLandFrom(value, r.end - r.start - |value|, i)
    decreases |value| - i
  {
    hide Located, Faithful, NoWideBreak, BreakAt, StartsWith, MarkerBefore, LandsAt;
    FaithfulText(r, value, v, base);
    if i < |value| {
      TextLands(doc, v, base, r, value, i + 1);
      if value[i] == '\n' && MarkerBefore(value, i).Some? {
        BreakLands(doc, v, base, r, value, i);
      }
    }
  }

  lemma BreakLands(doc: Text, v: Text, base: nat, r: TextRange, value: Text, i: nat)
    requires Located(doc, v, base) && Faithful(PlainText(r, value), v, base) && NoWideBreak(doc)
    requires i < |value| && value[i] == '\n' && MarkerBefore(value, i).Some?
    ensures |value| <= r.end - r.start && LandsAt(value, r.end - r.start - |value|, MarkerBefore(value, i).value)
  {
    hide Located, BreakAt, StartsWith, MarkerBefore, Faithful;
    ValueIsSource(doc, v, base, r, value);
    var m := MarkerBefore(value, i).value;
    BreakInSource(doc, r.end - |value|, r.end, m);
    assert value[m] == ' ';
  }

  lemma {:induction false} TilesLand(doc: Text, s: seq<Inline>, v: Text, base: nat, from: nat, end: nat)
    requires Located(doc, v, base) && Tiles(s, v, base, from, end) && from <= end <= |v| && NoWideBreak(doc)
    ensures AllBreaksLand(s)
    decreases s
  {
    hide Located, Faithful, BreaksLand, NoWideBreak;
    if s != [] {
      var x := s[|s| - 1];
      FaithfulRange(x, v, base);
      TilesLand(doc, s[..|s| - 1], v, base, from, x.range.start - base);
      InlineLands(doc, x, v, base);
    }
  }

  lemma {:induction false} InlineLands(doc: Text, x: Inline, v: Text, base: nat)
    requires Located(doc, v, base) && Faithful(x, v, base) && NoWideBreak(doc)
    ensures BreaksLand(x)
    decreases x, 0
  {
    hide Located, AllBreaksLand, Faithful, Tiles, BreaksLandFrom, NoWideBreak;
    if x.PlainText? {
      TextLands(doc, v, base, x.range, x.value, 0);
    } else if x.Styled? {
      StyledParts(doc, x, v, base);
      TilesLand(doc, x.children, Slice(v, base, x.content), x.content.start, 0, x.content.end - x.content.start);
    } else if (x.Link? || x.Reference?) && x.captionRange.Some? {
      var l := x.captionRange.value;
      CaptionParts(doc, x, v, base);
      TilesLand(doc, x.caption, Slice(v, base, l), l.start, 0, l.end - l.start);
    } else {
      UnchangedLands(doc, x, v, base);
    }
  }

  /** In such a source every text lands, whatever the block parser makes of it. */
  lemma AllTextsLand(c: Context, texts: seq<TextRange>)
    requires NoWideBreak(c.document.source)
    ensures AllLand(c, texts)
  {
    forall r | r in texts ensures Lands(c, r) {
      OneTextLands(c, r);
    }
  }

  lemma OneTextLands(c: Context, r: TextRange)
    requires NoWideBreak(c.document.source)
    ensures Lands(c, r)
  {
    hide Ready, NoWideBreak, Tiles, Inlines, SegmentOf, AllBreaksLand, Located;
    if Source.TextOf(c.document.source, r).Some? {
      InlinesTile(c, r);
      TilesLand(c.document.source, Inlines(c, r), SegmentOf(c, r), r.start, 0, r.end - r.start);
    } else {
      NoInlines(c, r);
    }
  }

  lemma NoInlines(c: Context, r: TextRange)
    requires Source.TextOf(c.document.source, r).None?
    ensures Inlines(c, r) == [] && AllBreaksLand([])
  {
    hide Ready;
  }

  /** A source without a hard break right behind a character outside ASCII gets a tree, unless it
      exceeds the depth limit. */
  method ParseSafeSource(c: Context) returns (r: Result<S.Node>)
    requires NoWideBreak(c.document.source)
    ensures r.Ok? <==> Blocks(c).Ok?
    ensures r.Err? ==> r.failure.DepthLimit?
  {
    hide Ready, NoWideBreak, S.Nested, S.Partitions, S.AllLeaves, AllLand, Blocks;
    r := ParseDocument(c);
    if Blocks(c).Ok? {
      AllTextsLand(c, Blocks(c).value.texts);
    }
  }
}
