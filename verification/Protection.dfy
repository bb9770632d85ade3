/** From a document to its formatted text: the parts of the tree that formatting must not touch. */
module Protection {
  import opened Text
  import opened Source
  import opened BlockModel
  import opened Documents
  import D = Edits
  import F = Formatter
  import S = Syntax

  predicate Protects(k: S.Kind) {
    || k.DocumentTitle? || k.Heading? || k.MalformedHeading? || k.LiteralBlock? || k.DelimitedBlock?
    || k.Unsupported? || k.DocumentAttribute? || k.BlockAnchor? || k.BlockAttribute? || k.BlockTitle?
    || k.List? || k.MathBlock? || k.InlineSpan? || k.Macro? || k.ErrorNode? || k.Unknown?
  }

  /** The ranges of the outermost protecting nodes. */
  function ProtectedIn(n: S.Node, above: bool): seq<TextRange>
    decreases S.Size(n), 0
  {
    if Protects(n.kind) && !above then [n.range] else ProtectedAmong(n.children, above || Protects(n.kind))
  }

  function ProtectedAmong(s: seq<S.Node>, above: bool): seq<TextRange>
    decreases S.SizeAll(s), 1
  {
    if s == [] then [] else ProtectedIn(s[0], above) + ProtectedAmong(s[1..], above)
  }

  method CollectProtectedRanges(n: S.Node, above: bool, output: seq<TextRange>) returns (r: seq<TextRange>)
    ensures r == output + ProtectedIn(n, above)
    decreases S.Size(n)
  {
    var protected := Protects(n.kind);
    if protected && !above {
      return output + [n.range];
    }
    r := output;
    assert n.children[0..] == n.children;
    for i := 0 to |n.children|
      invariant output + ProtectedIn(n, above) == r + ProtectedAmong(n.children[i..], above || protected)
    {
      ChildIsSmaller(n.children, i);
      assert n.children[i..][1..] == n.children[i + 1..];
      r := CollectProtectedRanges(n.children[i], above || protected, r);
    }
  }

  lemma {:induction false} ChildIsSmaller(s: seq<S.Node>, i: nat)
    requires i < |s|
    ensures S.Size(s[i]) <= S.SizeAll(s)
    decreases i
  {
    if i > 0 {
      ChildIsSmaller(s[1..], i - 1);
    }
  }

  predicate Covers(s: seq<TextRange>, r: TextRange) {
    exists p :: p in s && p.start <= r.start && r.end <= p.end
  }

  /** Each protecting node lies in a collected range. */
  lemma {:induction false} ProtectingIsCovered(s: seq<S.Node>, x: S.Node)
    requires S.AllNested(s) && x in S.Preorder(s) && Protects(x.kind)
    ensures Covers(ProtectedAmong(s, false), x.range)
    decreases S.SizeAll(s)
  {
    var own, rest := ProtectedIn(s[0], false), ProtectedAmong(s[1..], false);
    assert S.SizeAll(s[0].children) < S.Size(s[0]);
    if x in S.Preorder(s[1..]) {
      ProtectingIsCovered(s[1..], x);
      CoversMore(own, rest, x.range);
    } else {
      if Protects(s[0].kind) {
        if x != s[0] {
          BelowIsInside(s[0].children, s[0].range, x);
        }
        assert s[0].range in own;
      } else {
        ProtectingIsCovered(s[0].children, x);
      }
      CoversMore(own, rest, x.range);
    }
  }

  lemma CoversMore(a: seq<TextRange>, b: seq<TextRange>, r: TextRange)
    ensures Covers(a, r) || Covers(b, r) ==> Covers(a + b, r)
  {
    if Covers(a, r) {
      var p :| p in a && p.start <= r.start && r.end <= p.end;
      assert p in a + b;
    } else if Covers(b, r) {
      var p :| p in b && p.start <= r.start && r.end <= p.end;
      assert p in a + b;
    }
  }

  lemma {:induction false} BelowIsInside(s: seq<S.Node>, outer: TextRange, x: S.Node)
    requires S.AllNested(s) && S.Inside(s, outer) && x in S.Preorder(s)
    ensures outer.start <= x.range.start && x.range.end <= outer.end
    decreases S.SizeAll(s)
  {
    assert S.SizeAll(s[0].children) < S.Size(s[0]);
    assert s[0] in s;
    if x in S.Preorder(s[1..]) {
      BelowIsInside(s[1..], outer, x);
    } else if x != s[0] {
      BelowIsInside(s[0].children, s[0].range, x);
    }
  }

  /** Collected ranges are ranges of protecting nodes. */
  lemma {:induction false} CollectedProtects(s: seq<S.Node>, r: TextRange)
    requires r in ProtectedAmong(s, false)
    ensures exists x :: x in S.Preorder(s) && Protects(x.kind) && x.range == r
    decreases S.SizeAll(s)
  {
    assert S.SizeAll(s[0].children) < S.Size(s[0]);
    if r in ProtectedAmong(s[1..], false) {
      CollectedProtects(s[1..], r);
      var x :| x in S.Preorder(s[1..]) && Protects(x.kind) && x.range == r;
      assert x in S.Preorder(s);
    } else if Protects(s[0].kind) {
      assert s[0] in S.Preorder(s);
    } else {
      CollectedProtects(s[0].children, r);
      var x :| x in S.Preorder(s[0].children) && Protects(x.kind) && x.range == r;
      assert x in S.Preorder(s);
    }
  }

  function StartsOf(s: seq<S.Node>): set<int> {
    set n | n in s && n.kind.DocumentAttribute? :: n.range.start
  }

  function InputOf(c: Context, root: S.Node): F.Input {
    F.Input(c.document.source, c.document.lines, ProtectedIn(root, false), StartsOf(S.Preorder(root.children)))
  }

  /** The bytes of a range are in the formatted text, moved by the net length of earlier edits. */
  ghost predicate Kept(x: F.Input, cfg: F.Config, r: TextRange)
    requires r.end <= |x.source|
  {
    var at := r.start + D.Shift(F.EditsFrom(x, cfg, 0, 0), r.start);
    0 <= at && at + (r.end - r.start) <= |F.Formatted(x, cfg)|
      && F.Formatted(x, cfg)[at..at + (r.end - r.start)] == x.source[r.start..r.end]
  }

  lemma ClearWithin(s: seq<D.Edit>, outer: TextRange, r: TextRange)
    requires D.Clear(s, outer) && outer.start <= r.start && r.end <= outer.end
    ensures D.Clear(s, r)
  {
  }

  /** The source of every protecting node is in the formatted text, byte for byte. */
  lemma ProtectedNodeSurvives(c: Context, root: S.Node, cfg: F.Config, x: S.Node)
    requires root.kind.DocumentRoot? && root.range == Range(0, |c.document.source|) && S.Nested(root)
    requires x in S.Preorder(root.children) && Protects(x.kind) && x.range.start < x.range.end
    ensures x.range.end <= |c.document.source| && Kept(InputOf(c, root), cfg, x.range)
  {
    hide S.Preorder, S.Nested, ProtectedIn, F.EditsFrom, F.TextFrom, D.Ascending, D.Rebuilt, D.Clear, D.Shift, StartsOf,
      LinesOk, Valid;
    var input, v := InputOf(c, root), c.document.source;
    var p := CoverOf(root, x);
    DocumentFits(c);
    F.FirstLine(input);
    F.EditsBuildLines(input, cfg, 0, 0);
    F.ProtectedIsClear(input, cfg, 0, 0, p);
    ClearWithin(F.EditsFrom(input, cfg, 0, 0), p, x.range);
    D.ClearSurvives(v, F.EditsFrom(input, cfg, 0, 0), 0, x.range);
  }

  /** A collected range that holds a protecting node. */
  lemma CoverOf(root: S.Node, x: S.Node) returns (p: TextRange)
    requires root.kind.DocumentRoot? && S.Nested(root)
    requires x in S.Preorder(root.children) && Protects(x.kind)
    ensures p in ProtectedIn(root, false) && p.start <= x.range.start && x.range.end <= p.end <= root.range.end
  {
    hide S.Preorder, S.AllNested, ProtectedAmong;
    ProtectingIsCovered(root.children, x);
    p :| p in ProtectedAmong(root.children, false) && p.start <= x.range.start && x.range.end <= p.end;
    CollectedProtects(root.children, p);
    var y :| y in S.Preorder(root.children) && Protects(y.kind) && y.range == p;
    BelowIsInside(root.children, root.range, y);
  }

  lemma DocumentFits(c: Context)
    ensures Valid(c.document.source) && LinesOk(c.document.source, c.document.lines, 0)
  {
    DocumentIsOk(c);
  }

  /** Formats a document by its tree. It succeeds exactly when the document has a tree, and
      leaves every heading, list, delimited block, metadata line, span and macro as it is. */
  method FormatDocument(c: Context, cfg: F.Config) returns (r: Result<Text>, root: S.Node)
    ensures r.Ok? <==> Blocks(c).Ok? && AllLand(c, Blocks(c).value.texts)
    ensures r.Ok? ==> TreeOf(c, root) && r.value == F.Formatted(InputOf(c, root), cfg)
    ensures r.Ok? ==>
      && |root.children| == |Blocks(c).value.blocks|
      && forall i :: 0 <= i < |root.children| ==>
           root.children[i].kind == Blocks(c).value.blocks[i].kind
             && root.children[i].range == Blocks(c).value.blocks[i].range
    ensures r.Ok? ==> forall x :: x in S.Preorder(root.children) && Protects(x.kind) && x.range.start < x.range.end ==>
      x.range.end <= |c.document.source| && Kept(InputOf(c, root), cfg, x.range)
  {
    hide S.Partitions, S.AllLeaves, S.Preorder, S.Nested, ProtectedIn, F.Formatted, Kept, Blocks, AllLand, LinesOk,
      Valid, S.Materialized;
    root := S.Node(S.DocumentRoot, Range(0, 0), []);
    var tree := ParseDocument(c);
    if tree.Err? {
      return Err(tree.failure), root;
    }
    root := tree.value;
    var protected := CollectProtectedRanges(root, false, []);
    var nodes := S.Descendants(root);
    DocumentFits(c);
    var input := F.Input(c.document.source, c.document.lines, protected, StartsOf(nodes));
    assert input == InputOf(c, root);
    var formatted, edits := F.Format(input, cfg);
    forall x | x in S.Preorder(root.children) && Protects(x.kind) && x.range.start < x.range.end
      ensures x.range.end <= |c.document.source| && Kept(InputOf(c, root), cfg, x.range)
    {
      ProtectedNodeSurvives(c, root, cfg, x);
    }
    r := Ok(formatted);
  }
}
