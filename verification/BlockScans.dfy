/** The loops that look ahead over lines, each proved to find what its definition says. */
module BlockScans {
  import opened Text
  import opened BlockGrammar
  import opened BlockModel
  import opened BlockState
  import opened BlockParser
  import S = Syntax

  /** Looks back over attribute lines for the blank or comment line above them. */
  method FindSetOff(c: Context, line: nat, sawContent: bool) returns (r: bool)
    requires line <= LineCount(c)
    ensures r <==> sawContent && SetOff(c, line)
  {
    hide Ready, Content, AllBlank, AttributeLine, Starts;
    if !sawContent {
      return false;
    }
    var preceding: nat := line;
    while preceding > 0
      invariant preceding <= line && (SetOff(c, line) <==> SetOff(c, preceding))
    {
      preceding := preceding - 1;
      var content := Content(c, preceding);
      if AllBlank(content) {
        return true;
      }
      if Starts(content, "//") {
        return true;
      }
      if !AttributeLine(content) {
        return false;
      }
    }
    return false;
  }

  method FindAttributeEnd(c: Context, i: nat) returns (last: nat)
    requires i < LineCount(c) && AttributeLine(Content(c, i))
    ensures last == AttributeEnd(c, i)
  {
    hide Ready, Content, AttributeLine, Unsets, Continues;
    if Unsets(Content(c, i)) {
      return i;
    }
    last := i;
    while Continues(Content(c, last)) && last + 1 < LineCount(c)
      invariant i <= last < LineCount(c) && ValueEnd(c, i) == ValueEnd(c, last)
      decreases LineCount(c) - last
    {
      last := last + 1;
    }
  }

  method FindLiteralEnd(c: Context, i: nat) returns (end: nat)
    requires i <= LineCount(c)
    ensures end == LiteralEnd(c, i)
  {
    hide Ready, Content, StartsBlank;
    end := i;
    while end < LineCount(c)
      invariant i <= end <= LineCount(c) && LiteralEnd(c, i) == LiteralEnd(c, end)
    {
      if !StartsBlank(Content(c, end)) {
        break;
      }
      end := end + 1;
    }
  }

  method FindPrincipalEnd(c: Context, i: nat, limit: nat) returns (end: nat)
    requires i <= limit <= LineCount(c)
    ensures end == PrincipalEnd(c, i, limit)
  {
    hide Ready, Content, MarkerOf, Classify;
    end := i;
    while end < limit
      invariant i <= end <= limit && PrincipalEnd(c, i, limit) == PrincipalEnd(c, end, limit)
    {
      var content := Content(c, end);
      if content == "+" || MarkerOf(content).Some? {
        break;
      }
      var next := if end + 1 < LineCount(c) then Some(Content(c, end + 1)) else None;
      var k := Classify(c.grammar, content, next, false);
      if k != ParagraphText && k != LiteralParagraph {
        break;
      }
      end := end + 1;
    }
  }

  method FindContinuationStart(c: Context, i: nat, limit: nat) returns (start: nat)
    requires i < limit <= LineCount(c)
    ensures start == ContinuationStart(c, i, limit)
  {
    hide Ready, Content, AllBlank, MetadataLine;
    var cursor := i;
    while cursor < limit
      invariant i <= cursor <= limit && MetadataRun(c, i, limit) == MetadataRun(c, cursor, limit)
    {
      var content := Content(c, cursor);
      if AllBlank(content) {
        break;
      }
      if !MetadataLine(content) {
        break;
      }
      cursor := cursor + 1;
    }
    start := if cursor > i && cursor < limit && !AllBlank(Content(c, cursor)) then cursor else i;
  }

  lemma MergeUnfolds(s: seq<ListItem>)
    requires Ascending(s)
    ensures |s| < 2 ==> MergeTerms(s) == s
    ensures 2 <= |s| ==> Ascending(s[1..])
    ensures 2 <= |s| && Combines(s[0], s[1]) ==>
      && Ascending([Combined(s[0], s[1])] + s[2..])
      && MergeTerms(s) == MergeTerms([Combined(s[0], s[1])] + s[2..])
    ensures 2 <= |s| && !Combines(s[0], s[1]) ==> MergeTerms(s) == [s[0]] + MergeTerms(s[1..])
  {
    if 2 <= |s| {
      if Combines(s[0], s[1]) {
        CombinedAscends(s);
      }
    }
  }

  lemma MergeStep(flat: seq<ListItem>, i: nat)
    requires i + 1 < |flat| && Ascending(flat[i..])
    ensures if Combines(flat[i], flat[i + 1]) then
              && flat[i].range.start <= flat[i + 1].range.end
              && var merged := flat[..i] + [Combined(flat[i], flat[i + 1])] + flat[i + 2..];
              merged[..i] == flat[..i] && Ascending(merged[i..]) && MergeTerms(merged[i..]) == MergeTerms(flat[i..])
            else
              && Ascending(flat[i + 1..])
              && flat[..i] + MergeTerms(flat[i..]) == flat[..i + 1] + MergeTerms(flat[i + 1..])
  {
    hide MergeTerms, Combined;
    var tail := flat[i..];
    assert tail[1..] == flat[i + 1..] && tail[2..] == flat[i + 2..];
    MergeUnfolds(tail);
    if Combines(flat[i], flat[i + 1]) {
      var merged := flat[..i] + [Combined(flat[i], flat[i + 1])] + flat[i + 2..];
      assert merged[i..] == [Combined(flat[i], flat[i + 1])] + flat[i + 2..];
    } else {
      var rest := MergeTerms(flat[i + 1..]);
      assert flat[..i] + ([flat[i]] + rest) == flat[..i + 1] + rest;
    }
  }

  /** Merges terms in place, one removal at a time. */
  method MergeInPlace(s: seq<ListItem>) returns (flat: seq<ListItem>)
    requires Ascending(s)
    ensures flat == MergeTerms(s)
  {
    hide Combines, Combined, MergeTerms, Ascending;
    flat := s;
    var i: nat := 0;
    assert flat[0..] == flat && flat[..0] == [];
    assert [] + MergeTerms(s) == MergeTerms(s);
    while i + 1 < |flat|
      invariant i <= |flat| && Ascending(flat[i..])
      invariant MergeTerms(s) == flat[..i] + MergeTerms(flat[i..])
      decreases |flat| - i
    {
      MergeStep(flat, i);
      if Combines(flat[i], flat[i + 1]) {
        flat := flat[..i] + [Combined(flat[i], flat[i + 1])] + flat[i + 2..];
      } else {
        i := i + 1;
      }
    }
    MergeUnfolds(flat[i..]);
    assert flat == flat[..i] + flat[i..];
  }

  /** Where the pending nodes after the metadata start. */
  method FindTrailing(s: seq<S.Node>, end: nat) returns (k: nat)
    ensures k == Attached(s, end)
  {
    k := 0;
    assert s[0..] == s;
    while k < |s| && !(end <= s[k].range.start)
      invariant k <= |s| && Attached(s, end) == k + Attached(s[k..], end)
    {
      assert s[k..][1..] == s[k + 1..];
      k := k + 1;
    }
    assert k < |s| ==> s[k..][0] == s[k];
  }
}
