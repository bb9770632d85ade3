/** Formatting a document twice, each time with what its own tree protects. */
module SettledDocuments {
  import opened Text
  import opened Source
  import opened BlockModel
  import opened Documents
  import opened Protection
  import F = Formatter
  import P = FormatterFixpoint
  import T = SettledTexts
  import S = Syntax

  lemma LinesOf(c: Context)
    ensures Valid(c.document.source) && c.document.lines == Lines(c.document.source)
  {
    hide Lines, LinesOk;
    DocumentFits(c);
    LinesUnique(c.document.source, c.document.lines, 0, 0);
    WholeLines(c.document.source);
  }

  lemma WholeLines(v: Text)
    ensures Lines(v) == LinesFrom(v, 0, 0)
  {
  }

  /** A tree without protecting nodes has no attributes either. */
  lemma NothingStarts(s: seq<S.Node>)
    requires S.AllNested(s) && ProtectedAmong(s, false) == []
    ensures StartsOf(S.Preorder(s)) == {}
  {
    hide S.AllNested, ProtectedAmong, S.Preorder;
    forall x | x in S.Preorder(s) ensures !x.kind.DocumentAttribute? {
      if x.kind.DocumentAttribute? {
        ProtectingIsCovered(s, x);
        assert false;
      }
    }
  }

  lemma TreeNests(c: Context, root: S.Node)
    requires TreeOf(c, root)
    ensures S.Nested(root)
  {
    hide S.Materialized, Blocks, S.Nested;
    var v, blocks := c.document.source, Blocks(c).value.blocks;
    forall i | 0 <= i < |root.children| ensures S.Nested(root.children[i]) && root.children[i].range.end <= |v| {
      S.MaterializedNests(v, c.document.tokens, blocks[i]);
      MaterializedFits(v, c.document.tokens, blocks[i]);
    }
    EachNests(root.children);
    RootNests(root);
  }

  lemma MaterializedFits(v: Text, tokens: seq<Token>, n: S.Node)
    requires S.Materialized(v, tokens, n).Some?
    ensures S.Materialized(v, tokens, n).value.range.end <= |v|
  {
  }

  lemma {:induction false} EachNests(s: seq<S.Node>)
    requires forall i :: 0 <= i < |s| ==> S.Nested(s[i])
    ensures S.AllNested(s)
    decreases |s|
  {
    hide S.Nested;
    if s != [] {
      EachNests(s[1..]);
    }
  }

  lemma RootNests(root: S.Node)
    requires S.AllNested(root.children) && root.range.start == 0
    requires forall i :: 0 <= i < |root.children| ==> root.children[i].range.end <= root.range.end
    ensures S.Nested(root)
  {
    hide S.AllNested;
  }

  /** A document whose tree protects nothing is formatted as its plain text. */
  lemma UnprotectedIsPlain(c: Context, root: S.Node)
    requires TreeOf(c, root) && ProtectedIn(root, false) == []
    ensures InputOf(c, root) == P.Plain(c.document.source)
  {
    hide S.AllNested, ProtectedAmong, S.Preorder, StartsOf, Lines, Blocks, S.Materialized;
    LinesOf(c);
    TreeNests(c, root);
    NothingStarts(root.children);
  }

  /** Whatever its tree protects, a document is formatted as its text under some protection. */
  lemma FormattedUnder(c: Context, root: S.Node)
    ensures InputOf(c, root)
      == T.Shielding(c.document.source, ProtectedIn(root, false), StartsOf(S.Preorder(root.children)))
  {
    hide ProtectedIn, S.Preorder, StartsOf, Lines;
    LinesOf(c);
  }

  /** A document that holds nothing to protect, and that is settled, is formatted once and for all:
      formatting the document that the formatted text is changes nothing, whatever it protects. */
  lemma SettledDocumentStays(c: Context, root: S.Node, cfg: F.Config, again: Context, tree: S.Node)
    requires TreeOf(c, root) && ProtectedIn(root, false) == []
    requires !T.Unsettled(P.Plain(c.document.source), cfg)
    requires again.document.source == F.Formatted(InputOf(c, root), cfg)
    ensures F.Formatted(InputOf(again, tree), cfg) == again.document.source
  {
    hide ProtectedIn, TreeOf, S.Preorder, StartsOf, F.Formatted, T.Unsettled, Lines;
    LinesOf(c);
    UnprotectedIsPlain(c, root);
    FormattedUnder(again, tree);
    T.SettledStays(c.document.source, cfg, ProtectedIn(tree, false), StartsOf(S.Preorder(tree.children)));
  }

  /** When neither tree protects anything, the second pass changes nothing exactly when the document
      was settled. */
  lemma UnprotectedAgainIff(c: Context, root: S.Node, cfg: F.Config, again: Context, tree: S.Node)
    requires TreeOf(c, root) && ProtectedIn(root, false) == []
    requires TreeOf(again, tree) && ProtectedIn(tree, false) == []
    requires again.document.source == F.Formatted(InputOf(c, root), cfg)
    ensures F.Formatted(InputOf(again, tree), cfg) == again.document.source <==>
      !T.Unsettled(P.Plain(c.document.source), cfg)
  {
    hide ProtectedIn, TreeOf, S.Preorder, StartsOf, F.Formatted, T.Unsettled, Lines;
    LinesOf(c);
    UnprotectedIsPlain(c, root);
    UnprotectedIsPlain(again, tree);
    T.FormattedAgain(c.document.source, cfg);
  }
}
