/** Which lines of a document are header lines: the exact rule for titles, author and revision lines
    and document attributes, told from the blocks before them. */
module HeaderPhase {
  import opened Text
  import opened Source
  import opened BlockGrammar
  import opened BlockModel
  import opened BlockState
  import opened BlockTiling
  import opened BlockSteps
  import opened BlockLines
  import opened BlockParser
  import opened BlockSafety
  import opened BlockHeader
  import opened Delimiter
  import opened Documents
  import S = Syntax

  // ---------------------------------------------------------------- the phase, from the blocks

  /** Whether attribute entries are still header attributes, and whether the header has begun. */
  datatype Phase = Phase(open: bool, started: bool)

  /** Metadata stands before the marker of a heading, or before the two parts of a math block. */
  predicate IsLed(n: S.Node) {
    if n.kind.MathBlock? then 2 < |n.children| else n.children != [] && !n.children[0].kind.HeadingMarker?
  }

  /** Metadata and text close the header, and so does a blank line once it has begun. */
  function PhaseAfter(p: Phase, n: S.Node): Phase {
    if n.kind.DocumentTitle? then Phase(true, true)
    else if n.kind.AuthorLine? || n.kind.RevisionLine? then p.(started := true)
    else if n.kind.DocumentAttribute? then p.(started := p.started || p.open)
    else if n.kind.BlankLine? then p.(open := p.open && !p.started)
    else if n.kind.CommentLine? then p
    else if (n.kind.Heading? || n.kind.MalformedHeading? || n.kind.MathBlock?) && !IsLed(n) then p
    else p.(open := false)
  }

  function PhaseOf(s: seq<S.Node>): Phase {
    if s == [] then Phase(true, false) else PhaseAfter(PhaseOf(Init(s)), Last(s))
  }

  predicate HasAnchor(s: seq<S.Node>) { exists i :: 0 <= i < |s| && s[i].kind.BlockAnchor? }

  /** Metadata that no block follows. */
  predicate IsOrphan(n: S.Node) { n.kind.Unsupported? && |n.children| == 1 && n.children[0].children != [] }

  /** Blocks behind which no title may stand: all content, and anchors that no block follows. */
  predicate Counts(n: S.Node) {
    if IsOrphan(n) then HasAnchor(n.children[0].children) else IsContent(n.kind) || n.kind.Unsupported?
  }

  predicate AnyCounts(s: seq<S.Node>) { exists i :: 0 <= i < |s| && Counts(s[i]) }

  predicate RevisionText(c: Context, m: nat)
    requires m < LineCount(c)
  {
    !AllBlank(Content(c, m)) && HeaderText(Content(c, m))
  }

  predicate AuthorText(c: Context, m: nat)
    requires m < LineCount(c)
  {
    RevisionText(c, m) && c.grammar.author(Content(c, m))
  }

  /** What a block on line `m` is, behind the blocks `before` and with the lines `w` waiting for it: an
      author line exactly when it reads as one directly behind a title, a revision line directly behind
      an author line; of the others, an attribute entry in the open header or set off from text, and a
      title before all content. */
  ghost predicate Decided(c: Context, before: seq<S.Node>, k: S.Kind, m: nat, w: seq<S.Node>)
    requires m < LineCount(c)
  {
    && (k.AuthorLine? <==> (w == [] && EndsIn(before, S.DocumentTitle) && AuthorText(c, m)))
    && (k.RevisionLine? <==> (w == [] && EndsIn(before, S.AuthorLine) && RevisionText(c, m)))
    && (!k.AuthorLine? && !k.RevisionLine? ==>
          && (Is(c, m, AttributeText) ==>
                (k.DocumentAttribute? <==> (w == [] && PhaseOf(before).open) || SetOff(c, m)))
          && (Is(c, m, HeadingText) && HeadingLine(Content(c, m), 1) ==>
                (k.DocumentTitle? <==> !AnyCounts(before) && !HasAnchor(w))))
  }

  /** The lines from `a` to `m` wait for the block. */
  ghost predicate Head(c: Context, n: S.Node, a: nat, m: nat) {
    && a <= m < LineCount(c) && m - a <= |n.children|
    && n.range.start == LineStart(c, a) && Waiting(c, n.children[..m - a], a)
  }

  /** No later line of a paragraph is an attribute entry set off from text. */
  ghost predicate Unbroken(c: Context, n: S.Node, m: nat) {
    n.kind.Paragraph? ==>
      forall j :: m < j < LineCount(c) && LineStart(c, j) < n.range.end && AttributeLine(Content(c, j)) ==>
        !SetOff(c, j)
  }

  ghost predicate Leads(c: Context, before: seq<S.Node>, n: S.Node, a: nat, m: nat)
    requires Head(c, n, a, m)
  {
    Decided(c, before, n.kind, m, n.children[..m - a]) && Unbroken(c, n, m)
  }

  /** Metadata alone, or a block that its first line after the waiting ones decides. */
  ghost predicate Told(c: Context, before: seq<S.Node>, n: S.Node) {
    IsOrphan(n) || exists a: nat, m: nat :: Head(c, n, a, m) && Leads(c, before, n, a, m)
  }

  ghost predicate AllTold(c: Context, s: seq<S.Node>) {
    forall i :: 0 <= i < |s| ==> Told(c, s[..i], s[i])
  }

  // ---------------------------------------------------------------- the state agrees with the blocks

  predicate Rests(st: State) { st.pending.syntax == [] && st.paragraph == [] }

  ghost predicate Agrees(st: State) {
    && st.header.Some?
    && st.header.value.open == (PhaseOf(st.blocks).open && Rests(st))
    && st.header.value.started == PhaseOf(st.blocks).started
    && st.sawContent == (AnyCounts(st.blocks) || HasAnchor(st.pending.syntax) || st.paragraph != [])
  }

  ghost predicate Awaits(st: State)
    requires st.header.Some?
  {
    && st.header.value.author == (Rests(st) && EndsIn(st.blocks, S.DocumentTitle))
    && st.header.value.revision == (Rests(st) && EndsIn(st.blocks, S.AuthorLine))
  }

  ghost predicate ParagraphTold(c: Context, st: State) {
    st.paragraph != [] ==>
      && 0 <= ParagraphStart(st) < LineCount(c) && st.line <= LineCount(c)
      && Decided(c, st.blocks, S.Paragraph, ParagraphStart(st), st.pending.syntax)
      && forall j: nat :: ParagraphStart(st) < j < st.line && AttributeLine(Content(c, j)) ==> !SetOff(c, j)
  }

  ghost predicate HeaderKnown(c: Context, st: State) {
    AllTold(c, st.blocks) && Agrees(st) && ParagraphTold(c, st)
  }

  /** What is known of the line that comes next, once the paragraph before it is closed: it is no author
      or revision line, and its class. */
  ghost predicate Due(c: Context, st: State, k: LineClass) {
    && st.line < LineCount(c) && st.paragraph == []
    && !(Rests(st) && EndsIn(st.blocks, S.DocumentTitle) && AuthorText(c, st.line))
    && !(Rests(st) && EndsIn(st.blocks, S.AuthorLine) && RevisionText(c, st.line))
    && (Is(c, st.line, AttributeText) ==>
          (k == AttributeText <==> (Rests(st) && PhaseOf(st.blocks).open) || SetOff(c, st.line)))
    && (Is(c, st.line, HeadingText) ==> k == HeadingText)
  }

  lemma PhaseAppend(s: seq<S.Node>, n: S.Node)
    ensures PhaseOf(s + [n]) == PhaseAfter(PhaseOf(s), n)
    ensures AnyCounts(s + [n]) <==> AnyCounts(s) || Counts(n)
    ensures EndsIn(s + [n], n.kind) && forall k :: EndsIn(s + [n], k) <==> k == n.kind
  {
    hide PhaseAfter, Counts;
    var t := s + [n];
    assert Init(t) == s && Last(t) == n && t[|s|] == n;
    assert forall i :: 0 <= i < |s| ==> t[i] == s[i];
  }

  lemma ToldAppend(c: Context, s: seq<S.Node>, n: S.Node)
    requires AllTold(c, s) && Told(c, s, n)
    ensures AllTold(c, s + [n])
  {
    hide Told;
    var t := s + [n];
    forall i | 0 <= i < |t| ensures Told(c, t[..i], t[i]) {
      if i < |s| {
        assert t[..i] == s[..i] && t[i] == s[i];
      } else {
        assert t[..i] == s;
      }
    }
  }

  // ---------------------------------------------------------------- adding one block

  /** The block with the lines that wait for it. */
  function WithWaiting(c: Context, node: S.Node, w: seq<S.Node>, f: nat): S.Node
    requires f <= LineCount(c)
  {
    hide Ready;
    if w == [] then node
    else S.Node(node.kind, Range(LineStart(c, f), Max(LineStart(c, f), node.range.end)), w + node.children)
  }

  lemma AttachedNode(c: Context, st: State, done: seq<S.Node>, node: S.Node, f: nat)
    requires st.blocks == done + [node] && PendingFits(c, st.pending, f) && AttachPending(st).Ok?
    requires f <= LineCount(c)
    ensures AttachPending(st).value
      == st.(pending := NOTHING, blocks := done + [WithWaiting(c, node, st.pending.syntax, f)])
  {
    hide Ready, LineStart, Waiting;
    assert st.blocks[..|st.blocks| - 1] == done;
    if st.pending.syntax != [] {
      PendingRange(c, st.pending, f);
    }
  }

  lemma NodeIsTold(c: Context, before: seq<S.Node>, node: S.Node, w: seq<S.Node>, f: nat, m: nat)
    requires f + |w| == m < LineCount(c) && Waiting(c, w, f) && node.range.start == LineStart(c, m)
    requires Decided(c, before, node.kind, m, w) && Unbroken(c, WithWaiting(c, node, w, f), m)
    ensures Told(c, before, WithWaiting(c, node, w, f))
  {
    hide Ready, LineStart, WaitingLine, Decided, Unbroken;
    var n := WithWaiting(c, node, w, f);
    assert n.children[..m - f] == w;
    assert Head(c, n, f, m) && Leads(c, before, n, f, m);
  }

  /** What committing a block does to what is known. */
  lemma CommitTold(c: Context, st: State, node: S.Node, texts: seq<TextRange>, next: nat, end: nat)
    requires AllTold(c, st.blocks) && 0 <= Flushed(st) && st.paragraph == []
      && PendingFits(c, st.pending, Flushed(st)) && st.line < LineCount(c)
    requires node.range.start == LineStart(c, st.line) && !node.kind.Paragraph?
    requires Decided(c, st.blocks, node.kind, st.line, st.pending.syntax)
    requires CommitBlock(st, node, texts, next, end).Ok?
    ensures Flushed(st) <= LineCount(c)
    ensures var r, n := CommitBlock(st, node, texts, next, end).value,
        WithWaiting(c, node, st.pending.syntax, Flushed(st));
      && r.blocks == st.blocks + [n] && AllTold(c, r.blocks) && r.pending == NOTHING && r.paragraph == []
      && r.header == st.header && r.sawContent == st.sawContent
  {
    hide Ready, LineStart, WaitingLine, Decided, AllTold, AttachPending, WithWaiting;
    var f := Flushed(st);
    var moved := Commit(st, next, end).value;
    var added := moved.(blocks := st.blocks + [node], texts := st.texts + texts);
    AttachedNode(c, added, st.blocks, node, f);
    var n := WithWaiting(c, node, st.pending.syntax, f);
    assert Unbroken(c, n, st.line) by { KindKept(c, node, st.pending.syntax, f); }
    NodeIsTold(c, st.blocks, node, st.pending.syntax, f, st.line);
    ToldAppend(c, st.blocks, n);
  }

  lemma KindKept(c: Context, node: S.Node, w: seq<S.Node>, f: nat)
    requires f <= LineCount(c)
    ensures var n := WithWaiting(c, node, w, f); n.kind == node.kind && n.children == w + node.children
  {
    hide Ready, LineStart;
    assert [] + node.children == node.children;
  }

  // ---------------------------------------------------------------- closing what waits

  lemma FlushTold(c: Context, st: State, start: nat, end: nat)
    requires Inv(c, st, start, end) && HeaderKnown(c, st) && ParagraphEnds(c, st.line, end)
    ensures FlushParagraph(c, st).Ok?
    ensures var r := FlushParagraph(c, st).value;
      && AllTold(c, r.blocks) && Agrees(r) && r.paragraph == [] && r.line == st.line && r.header == st.header
      && (if st.paragraph == [] then r == st else r.pending == NOTHING && EndsIn(r.blocks, S.Paragraph))
  {
    hide Ready, LineStart, Inv, Told, AllTold, FlushParagraph, PhaseOf, AnyCounts, HasAnchor, EndsIn, ParagraphTold,
      ParagraphEnds;
    if st.paragraph == [] {
      assert FlushParagraph(c, st) == Ok(st) by { NoFlush(c, st); }
    } else {
      var n := FlushIs(c, st, start, end);
      ToldAppend(c, st.blocks, n);
      PhaseAppend(st.blocks, n);
      NoAnchor();
    }
  }

  lemma NoFlush(c: Context, st: State)
    requires st.paragraph == []
    ensures FlushParagraph(c, st) == Ok(st)
  {
    hide Ready, ParagraphNode;
  }

  lemma FlushIs(c: Context, st: State, start: nat, end: nat) returns (n: S.Node)
    requires Inv(c, st, start, end) && ParagraphTold(c, st) && ParagraphEnds(c, st.line, end) && st.paragraph != []
    ensures n.kind == S.Paragraph && Told(c, st.blocks, n) && FlushParagraph(c, st).Ok?
    ensures var r := FlushParagraph(c, st).value;
      r == st.(paragraph := [], pending := NOTHING, blocks := st.blocks + [n], texts := r.texts)
  {
    hide Ready, LineStart, Waiting, Decided, Told, AttachPending, WithWaiting, Tiled, ParagraphLine, SetOff,
      ParagraphNode, AllLand, S.AllWellNested, ParagraphEnds, NodeOver, Opens, Unbroken, PendingFits;
    FlushParagraphKeeps(c, st, start, end);
    var p, f := ParagraphStart(st), Flushed(st);
    ParagraphIsBlock(c, st.paragraph, p, end);
    var (node, body) := ParagraphNode(c, st.paragraph).value;
    NodeOverRange(c, node, p, st.line);
    var added := st.(paragraph := [], blocks := st.blocks + [node], texts := st.texts + [body]);
    AttachedNode(c, added, st.blocks, node, f);
    n := WithWaiting(c, node, st.pending.syntax, f);
    KindKept(c, node, st.pending.syntax, f);
    ParagraphUnbroken(c, st, node, f);
    ParagraphKind(c, st.paragraph);
    PendingWaits(c, st.pending, f);
    NodeIsTold(c, st.blocks, node, st.pending.syntax, f, p);
  }

  lemma ParagraphKind(c: Context, s: seq<Line>)
    requires s != [] && ParagraphNode(c, s).Ok?
    ensures ParagraphNode(c, s).value.0.kind == S.Paragraph
  {
    hide Ready, BrokenNodes, AdmonitionOffset;
  }

  lemma ParagraphUnbroken(c: Context, st: State, node: S.Node, f: nat)
    requires ParagraphTold(c, st) && st.paragraph != [] && f <= ParagraphStart(st)
    requires node.range == Span(c, ParagraphStart(st), st.line)
    ensures f <= LineCount(c) && Unbroken(c, WithWaiting(c, node, st.pending.syntax, f), ParagraphStart(st))
  {
    hide Ready, SetOff, Content, AttributeLine, LineStart, Decided;
    LinesAscend(c, f, st.line);
    forall j | ParagraphStart(st) < j < LineCount(c) && LineStart(c, j) < LineStart(c, st.line) ensures j < st.line {
      if st.line <= j {
        LinesAscend(c, st.line, j);
      }
    }
  }

  lemma CommentTold(c: Context, before: seq<S.Node>, j: nat)
    requires j < LineCount(c) && Is(c, j, CommentText) && AllTold(c, before)
    requires !(EndsIn(before, S.DocumentTitle) && AuthorText(c, j))
    requires !(EndsIn(before, S.AuthorLine) && RevisionText(c, j))
    ensures var n := S.Leaf(S.CommentLine, LineAt(c, j).full);
      && AllTold(c, before + [n]) && PhaseOf(before + [n]) == PhaseOf(before)
      && (AnyCounts(before + [n]) <==> AnyCounts(before))
      && !EndsIn(before + [n], S.DocumentTitle) && !EndsIn(before + [n], S.AuthorLine)
  {
    hide Ready, LineStart, AllTold, AuthorText, RevisionText, SetOff, HeadingLine, PhaseOf, AnyCounts;
    var n := S.Leaf(S.CommentLine, LineAt(c, j).full);
    CommentIsNone(c, j);
    LineSpan(c, j);
    assert Decided(c, before, S.CommentLine, j, []);
    NoneWait(c, j);
    NodeIsTold(c, before, n, [], j, j);
    ToldAppend(c, before, n);
    PhaseAppend(before, n);
  }

  lemma NoneWait(c: Context, j: nat)
    requires j <= LineCount(c)
    ensures Waiting(c, [], j)
  {
  }

  lemma CommentIsNone(c: Context, j: nat)
    requires j < LineCount(c) && Is(c, j, CommentText)
    ensures !Is(c, j, AttributeText) && !Is(c, j, HeadingText)
  {
    hide Ready, Content, Starts;
    assert HasFormOf(c.grammar, Content(c, j), None, CommentText);
  }

  lemma {:induction false} CommentsTold(c: Context, done: seq<S.Node>, s: seq<S.Node>, a: nat)
    requires AllTold(c, done) && Waiting(c, s, a) && forall i :: 0 <= i < |s| ==> s[i].kind == S.CommentLine
    requires !EndsIn(done, S.DocumentTitle) && !EndsIn(done, S.AuthorLine)
    ensures AllTold(c, done + s) && PhaseOf(done + s) == PhaseOf(done) && (AnyCounts(done + s) <==> AnyCounts(done))
    ensures !EndsIn(done + s, S.DocumentTitle) && !EndsIn(done + s, S.AuthorLine)
    decreases |s|
  {
    hide Ready, LineAt, AllTold, AuthorText, RevisionText, PhaseOf, AnyCounts, Is;
    if s == [] {
      assert done + s == done;
    } else {
      assert WaitingLine(c, s[0], a + 0);
      CommentTold(c, done, a);
      WaitingTail(c, s, a);
      CommentsTold(c, done + [s[0]], s[1..], a + 1);
      assert done + s == done + [s[0]] + s[1..];
    }
  }

  /** Metadata that no block follows. */
  lemma OrphanTold(c: Context, st: State)
    requires 0 <= Flushed(st) && PendingFits(c, st.pending, Flushed(st)) && st.paragraph == []
    requires AllTold(c, st.blocks) && Agrees(st)
    ensures var r := FlushOrphan(st);
      && AllTold(c, r.blocks) && Agrees(r) && r == st.(pending := NOTHING, blocks := r.blocks)
      && (if st.pending.syntax == [] then r == st
          else !EndsIn(r.blocks, S.DocumentTitle) && !EndsIn(r.blocks, S.AuthorLine) && !PhaseOf(r.blocks).open)
  {
    hide Ready, LineStart, Waiting, AllTold, PhaseOf, AnyCounts, HasAnchor, EndsIn, FlushOrphan;
    var w, f := st.pending.syntax, Flushed(st);
    if w == [] {
      assert FlushOrphan(st) == st by { NothingFlushes(c, st); }
    } else {
      var m, orphan := OrphanIs(c, st);
      WaitingParts(c, w, f, m);
      ToldAppend(c, st.blocks, orphan);
      PhaseAppend(st.blocks, orphan);
      CommentsTold(c, st.blocks + [orphan], w[m..], f + m);
      AnchorsBefore(w, m);
      NoAnchor();
    }
  }

  lemma NothingFlushes(c: Context, st: State)
    requires 0 <= Flushed(st) && PendingFits(c, st.pending, Flushed(st)) && st.pending.syntax == []
    ensures FlushOrphan(st) == st && st.pending == NOTHING && !HasAnchor(st.pending.syntax)
  {
    hide Ready;
  }

  lemma OrphanIs(c: Context, st: State) returns (m: nat, n: S.Node)
    requires 0 <= Flushed(st) && PendingFits(c, st.pending, Flushed(st)) && st.pending.syntax != []
    ensures var w := st.pending.syntax;
      && m <= |w| && (forall i :: m <= i < |w| ==> w[i].kind == S.CommentLine)
      && n.kind == S.Unsupported && Told(c, st.blocks, n) && (forall p :: PhaseAfter(p, n) == p.(open := false))
      && (Counts(n) <==> HasAnchor(w[..m]))
      && FlushOrphan(st) == st.(pending := NOTHING, blocks := st.blocks + [n] + w[m..])
  {
    hide Ready, LineStart, Waiting, HasAnchor, Told, PhaseAfter, Counts, MetadataCount, Attached, PendingFits;
    var w, f := st.pending.syntax, Flushed(st);
    m := MetadataCount(w);
    assert Waiting(c, w, f) by { PendingWaits(c, st.pending, f); }
    PendingRange(c, st.pending, f);
    AttachedCount(c, w, f, m);
    CommentsAfter(w);
    var r := st.pending.range.value;
    n := S.Node(S.Unsupported, r, [S.Node(S.Unknown, r, w[..m])]);
    OrphanNode(c, st.blocks, r, w[..m]);
  }

  lemma PendingWaits(c: Context, p: Pending, f: nat)
    requires PendingFits(c, p, f)
    ensures Waiting(c, p.syntax, f)
  {
    hide Ready, Waiting;
  }

  lemma OrphanNode(c: Context, before: seq<S.Node>, r: TextRange, s: seq<S.Node>)
    requires s != []
    ensures var n := S.Node(S.Unsupported, r, [S.Node(S.Unknown, r, s)]);
      Told(c, before, n) && (Counts(n) <==> HasAnchor(s)) && forall p :: PhaseAfter(p, n) == p.(open := false)
  {
    hide Ready, HasAnchor, Head, Leads;
  }

  lemma NoAnchor()
    ensures !HasAnchor([])
  {
  }

  lemma AnchorsBefore(w: seq<S.Node>, m: nat)
    requires m <= |w| && forall i :: m <= i < |w| ==> w[i].kind == S.CommentLine
    ensures HasAnchor(w[..m]) <==> HasAnchor(w)
  {
    if HasAnchor(w) {
      var i :| 0 <= i < |w| && w[i].kind.BlockAnchor?;
      assert w[..m][i] == w[i];
    }
  }

  // ---------------------------------------------------------------- one line

  /** The line is no author or revision line. */
  ghost predicate Passed(c: Context, st: State)
    requires st.line < LineCount(c)
  {
    && !(Rests(st) && EndsIn(st.blocks, S.DocumentTitle) && AuthorText(c, st.line))
    && !(Rests(st) && EndsIn(st.blocks, S.AuthorLine) && RevisionText(c, st.line))
  }

  lemma ClassRule(c: Context, st: State, end: nat)
    requires st.line < end <= LineCount(c) && st.header.Some?
    ensures var k, open := ClassAt(c, st, end), st.header.value.open;
      && (Is(c, st.line, AttributeText) ==> (k == AttributeText <==> open || SetOff(c, st.line)))
      && (Is(c, st.line, HeadingText) ==> k == HeadingText)
      && (k == ParagraphText && AttributeLine(Content(c, st.line)) ==> !SetOff(c, st.line))
      && (k == AttributeText ==> Is(c, st.line, AttributeText))
  {
    hide Ready, Content, SetOff, Classify, HasFormOf;
    var next := if st.line + 1 < end then Some(Content(c, st.line + 1)) else None;
    var position := AttributePosition(c, st);
    FormIsClass(c.grammar, Content(c, st.line), next, position, AttributeText);
    FormIsClass(c.grammar, Content(c, st.line), next, position, HeadingText);
    PlainIsNoEntry(c.grammar, Content(c, st.line), next, position);
    ClassFacts(c, st, end);
  }

  /** A line that is first of all a heading is one, and an attribute entry is one where it may stand. */
  lemma FormIsClass(g: Grammar, t: Text, next: Option<Text>, position: bool, k: LineClass)
    requires k == AttributeText || k == HeadingText
    ensures FirstForm(g, t, None, k) ==> (Classify(g, t, next, position) == k <==> k == HeadingText || position)
  {
    hide DelimiterOf, AnchorLine, BlockTitle, BlockAttributes, AllBlank, StartsBlank, MarkerOf, UnsupportedForm,
      Classify;
    if FirstForm(g, t, None, k) {
      ClassIff(g, t, next, position, k);
      assert !HasFormOf(g, t, None, Metadata);
      forall j | Rank(j) < Rank(k) && j != AttributeText ensures !HasFormOf(g, t, next, j) {
        assert !HasFormOf(g, t, None, j);
      }
      if k == HeadingText {
        assert t[0..1][0] == t[0];
      }
    }
  }

  lemma PlainIsNoEntry(g: Grammar, t: Text, next: Option<Text>, position: bool)
    ensures Classify(g, t, next, position) == ParagraphText && AttributeLine(t) ==> !position
  {
    hide DelimiterOf, AnchorLine, BlockTitle, BlockAttributes, AllBlank, StartsBlank, MarkerOf, UnsupportedForm;
  }

  /** What is known of the line behind a closed paragraph. */
  lemma TurnIsDue(c: Context, st: State, fl: State, end: nat)
    requires st.line < end <= LineCount(c) && Agrees(st) && Agrees(fl) && fl.header == st.header && fl.line == st.line
    requires fl.paragraph == [] && Passed(c, st)
    requires if st.paragraph == [] then fl.blocks == st.blocks && fl.pending == st.pending
             else EndsIn(fl.blocks, S.Paragraph)
    ensures Due(c, fl, ClassAt(c, st, end))
  {
    hide Ready, Is, ClassAt, SetOff, PhaseOf, AnyCounts, HasAnchor, AuthorText, RevisionText;
    ClassRule(c, st, end);
  }

  predicate HeaderKind(k: S.Kind) { k.AuthorLine? || k.RevisionLine? || k.DocumentAttribute? || k.DocumentTitle? }

  lemma PlainIsDecided(c: Context, st: State, k: LineClass, kind: S.Kind)
    requires Due(c, st, k) && k != AttributeText && k != HeadingText && !HeaderKind(kind)
    ensures Decided(c, st.blocks, kind, st.line, st.pending.syntax)
  {
    hide Ready, Is, SetOff, PhaseOf, AnyCounts, HasAnchor, AuthorText, RevisionText;
  }

  /** The state fits an invariant for the next block to be added: nothing but metadata waits. */
  ghost predicate Clear(c: Context, st: State) {
    && 0 <= Flushed(st) && st.line < LineCount(c) && st.paragraph == [] && PendingFits(c, st.pending, Flushed(st))
    && AllTold(c, st.blocks) && Agrees(st)
  }

  ghost predicate Known(c: Context, st: State) { HeaderKnown(c, st) && Awaits(st) }

  /** The kinds of blocks that close the header. */
  predicate Closes(n: S.Node) {
    || n.kind.ThematicBreak? || n.kind.PageBreak? || n.kind.LiteralBlock? || n.kind.DelimitedBlock? || n.kind.List?
    || (n.kind.Unsupported? && |n.children| == 1 && n.children[0].children == [])
  }

  lemma ClosingNode(c: Context, node: S.Node, w: seq<S.Node>, f: nat)
    requires f <= LineCount(c) && Closes(node)
    ensures var n := WithWaiting(c, node, w, f);
      Counts(n) && forall p :: PhaseAfter(p, n) == p.(open := false)
  {
    hide Ready, LineStart, HasAnchor;
    KindKept(c, node, w, f);
  }

  /** Blocks that are text of the document. */
  lemma BodyBlockTold(c: Context, st: State, k: LineClass, node: S.Node, texts: seq<TextRange>, next: nat, end: nat)
    requires Clear(c, st) && Due(c, st, k) && k != AttributeText && k != HeadingText && Quiet(st)
    requires Closes(node) && node.range.start == LineStart(c, st.line)
    requires CommitBlock(st, node, texts, next, end).Ok?
    ensures Known(c, BodySeen(CommitBlock(st, node, texts, next, end).value))
  {
    hide Ready, LineStart, Due, AllTold, PhaseOf, AnyCounts, HasAnchor, CommitBlock, WithWaiting, PendingFits, Decided,
      EndsIn;
    PlainIsDecided(c, st, k, node.kind);
    CommitTold(c, st, node, texts, next, end);
    var n := WithWaiting(c, node, st.pending.syntax, Flushed(st));
    KindKept(c, node, st.pending.syntax, Flushed(st));
    ClosingNode(c, node, st.pending.syntax, Flushed(st));
    PhaseAppend(st.blocks, n);
  }

  lemma MathTold(c: Context, st: State, node: S.Node, next: nat, end: nat)
    requires Clear(c, st) && Due(c, st, Math) && Quiet(st)
    requires node.kind == S.MathBlock && |node.children| == 2 && node.range.start == LineStart(c, st.line)
    requires CommitBlock(st, node, [], next, end).Ok?
    ensures Known(c, CommitBlock(st, node, [], next, end).value.(sawContent := true))
  {
    hide Ready, LineStart, Due, AllTold, PhaseOf, AnyCounts, HasAnchor, CommitBlock, WithWaiting, PendingFits, Decided,
      EndsIn;
    PlainIsDecided(c, st, Math, node.kind);
    CommitTold(c, st, node, [], next, end);
    var n := WithWaiting(c, node, st.pending.syntax, Flushed(st));
    KindKept(c, node, st.pending.syntax, Flushed(st));
    PhaseAppend(st.blocks, n);
    NoAnchor();
  }

  /** A step that succeeds keeps what is known. */
  ghost predicate StepKnown(c: Context, r: Result<State>) { r.Ok? ==> Known(c, r.value) }

  lemma HeadingTold(c: Context, st: State, node: S.Node, next: nat, end: nat)
    requires Clear(c, st) && Quiet(st) && node.range.start == LineStart(c, st.line)
    requires node.kind.Heading? || node.kind.MalformedHeading? || node.kind.DocumentTitle?
    requires node.children != [] && node.children[0].kind.HeadingMarker?
    requires Decided(c, st.blocks, node.kind, st.line, st.pending.syntax)
    requires CommitBlock(st, node, [], next, end).Ok?
    ensures var r := CommitBlock(st, node, [], next, end).value;
      && r.header.Some?
      && Known(c, r.(sawContent := true, header := Some(if node.kind == S.DocumentTitle then
                       r.header.value.(open := true, started := true, author := true) else r.header.value)))
  {
    hide Ready, LineStart, AllTold, PhaseOf, AnyCounts, HasAnchor, CommitBlock, WithWaiting, PendingFits,
      EndsIn, Decided;
    CommitTold(c, st, node, [], next, end);
    var w := st.pending.syntax;
    var n := WithWaiting(c, node, w, Flushed(st));
    KindKept(c, node, w, Flushed(st));
    if w != [] {
      WaitingKinds(c, st);
    }
    PhaseAppend(st.blocks, n);
    NoAnchor();
  }

  lemma HeadingIsDecided(c: Context, st: State)
    requires Clear(c, st) && Due(c, st, HeadingText) && Is(c, st.line, HeadingText)
    ensures Decided(c, st.blocks, HeadingKind(HeadingOf(Content(c, st.line)), st.header.Some? && !st.sawContent),
                    st.line, st.pending.syntax)
  {
    hide Ready, LineStart, AllTold, PhaseOf, AnyCounts, HasAnchor, PendingFits, EndsIn, HeadingOf, HeadingKind, Content,
      HeadingLine, SetOff, AuthorText, RevisionText, Is;
    HeadingStarts(c, st.line);
    HeadingKindIff(Content(c, st.line), st.header.Some? && !st.sawContent);
    HeadingKinds(HeadingOf(Content(c, st.line)), st.header.Some? && !st.sawContent);
    HeadingIsNoEntry(c, st.line);
  }

  lemma HeadingKinds(h: HeadingParts, position: bool)
    ensures var k := HeadingKind(h, position); k == S.Heading || k == S.MalformedHeading || k == S.DocumentTitle
  {
  }

  lemma HeadingStepTold(c: Context, st: State, end: nat)
    requires st.line < end <= LineCount(c)
    requires Clear(c, st) && Due(c, st, HeadingText) && Quiet(st) && Is(c, st.line, HeadingText)
    ensures StepKnown(c, HeadingStep(c, st, end))
  {
    hide Ready, LineStart, CommitBlock, Clear, Quiet, Known, Decided, Due, HeadingOf, HeadingKind, Content, PlainNodes,
      Is;
    var position := st.header.Some? && !st.sawContent;
    var node := HeadingNode(c, st.line, position);
    HeadingIsDecided(c, st);
    HeadingKinds(HeadingOf(Content(c, st.line)), position);
    LineSpan(c, st.line);
    if CommitBlock(st, node, [], st.line + 1, end).Ok? {
      HeadingTold(c, st, node, st.line + 1, end);
    }
  }

  lemma WaitingKinds(c: Context, st: State)
    requires 0 <= Flushed(st) && PendingFits(c, st.pending, Flushed(st)) && st.pending.syntax != []
    ensures !st.pending.syntax[0].kind.HeadingMarker?
  {
    hide Ready, Is, LineAt;
    assert WaitingLine(c, st.pending.syntax[0], Flushed(st) + 0);
  }

  lemma HeadingIsNoEntry(c: Context, j: nat)
    requires j < LineCount(c) && Is(c, j, HeadingText)
    ensures !Is(c, j, AttributeText)
  {
    hide Ready, Content;
    HeadingStarts(c, j);
    var t := Content(c, j);
    assert t[0..1][0] == t[0];
  }

  // ---------------------------------------------------------------- lines that wait, or stand alone

  /** A block on the line, when nothing waits. */
  lemma LeafTold(c: Context, st: State, node: S.Node)
    requires Clear(c, st) && st.pending.syntax == [] && node.range.start == LineStart(c, st.line)
    requires !node.kind.Paragraph? && Decided(c, st.blocks, node.kind, st.line, [])
    ensures AllTold(c, st.blocks + [node])
  {
    hide Ready, LineStart, AllTold, Decided, PhaseOf, AnyCounts, HasAnchor;
    NoneWait(c, st.line);
    NodeIsTold(c, st.blocks, node, [], st.line, st.line);
    ToldAppend(c, st.blocks, node);
  }

  lemma CommentStepTold(c: Context, st: State, end: nat)
    requires st.line < end <= LineCount(c)
    requires Clear(c, st) && Due(c, st, CommentText) && Quiet(st) && Is(c, st.line, CommentText)
    ensures StepKnown(c, CommentStep(c, st, end))
  {
    hide Ready, LineStart, AllTold, PhaseOf, Is, SetOff, AuthorText, RevisionText, Content, HasAnchor, AnyCounts;
    var n := S.Leaf(S.CommentLine, LineAt(c, st.line).full);
    if st.pending.range.None? {
      CommentTold(c, st.blocks, st.line);
    } else {
      AnchorAppend(st.pending.syntax, n);
    }
  }

  lemma AnchorAppend(s: seq<S.Node>, n: S.Node)
    ensures HasAnchor(s + [n]) <==> HasAnchor(s) || n.kind.BlockAnchor?
  {
    var t := s + [n];
    assert t[|s|] == n && forall i :: 0 <= i < |s| ==> t[i] == s[i];
  }

  /** Orphaned metadata makes room for a line of its own. */
  lemma OrphanIsDue(c: Context, st: State, k: LineClass)
    requires Clear(c, st) && Due(c, st, k)
    ensures var r := FlushOrphan(st);
      Clear(c, r) && Due(c, r, k) && r == st.(pending := NOTHING, blocks := r.blocks) && r.pending.syntax == []
  {
    hide Ready, LineStart, AllTold, PhaseOf, AnyCounts, HasAnchor, Is, SetOff, AuthorText, RevisionText, Content,
      FlushOrphan, Waiting, EndsIn;
    OrphanTold(c, st);
    if st.pending.syntax == [] {
      NothingFlushes(c, st);
    }
    NothingPends(c, st.line);
  }

  lemma BlankStepTold(c: Context, st: State, end: nat)
    requires st.line < end <= LineCount(c) && Clear(c, st) && Due(c, st, BlankText) && Quiet(st)
    ensures StepKnown(c, BlankStep(c, st, end))
  {
    hide Ready, LineStart, AllTold, PhaseOf, Is, Due, AuthorText, RevisionText, Content, HasAnchor, AnyCounts,
      FlushOrphan, EndsIn, Decided, PendingFits;
    OrphanIsDue(c, st, BlankText);
    var clear := FlushOrphan(st);
    var n := S.Leaf(S.BlankLine, LineAt(c, st.line).full);
    LineSpan(c, st.line);
    PlainIsDecided(c, clear, BlankText, S.BlankLine);
    LeafTold(c, clear, n);
    PhaseAppend(clear.blocks, n);
  }

  lemma EntryIsDecided(c: Context, st: State)
    requires Due(c, st, AttributeText) && Is(c, st.line, AttributeText) && st.pending.syntax == []
    ensures Decided(c, st.blocks, S.DocumentAttribute, st.line, [])
  {
    hide Ready, Content, SetOff, PhaseOf, AnyCounts, HasAnchor, AuthorText, RevisionText, Is;
    if Is(c, st.line, HeadingText) {
      HeadingIsNoEntry(c, st.line);
    }
  }

  lemma AttributeStepTold(c: Context, st: State, end: nat)
    requires st.line < end <= LineCount(c) && AttributeLine(Content(c, st.line)) && Is(c, st.line, AttributeText)
    requires Clear(c, st) && Due(c, st, AttributeText) && Quiet(st)
    ensures StepKnown(c, AttributeStep(c, st, end))
  {
    hide Ready, LineStart, AllTold, PhaseOf, Is, Due, AuthorText, RevisionText, Content, HasAnchor, AnyCounts,
      FlushOrphan, EndsIn, Decided, PendingFits, AttributeEnd, AttributeLine;
    OrphanIsDue(c, st, AttributeText);
    var clear := FlushOrphan(st);
    LineSpan(c, st.line);
    EntryIsDecided(c, clear);
    var range := Between(LineAt(c, st.line).full.start, LineAt(c, AttributeEnd(c, st.line)).full.end);
    if range.Ok? {
      var n := S.Leaf(S.DocumentAttribute, range.value);
      LeafTold(c, clear, n);
      PhaseAppend(clear.blocks, n);
    }
  }

  lemma MetadataStepTold(c: Context, k: LineClass, st: State, end: nat)
    requires st.line < end <= LineCount(c) && k in {Anchor, TitleLine, Metadata}
    requires Clear(c, st) && Quiet(st)
    ensures StepKnown(c, MetadataStep(c, k, st, end))
  {
    hide Ready, LineStart, AllTold, PhaseOf, Content, HasAnchor, AnyCounts, PendingFits;
    AnchorAppend(st.pending.syntax, S.Leaf(WaitingKind(k), LineAt(c, st.line).full));
  }

  /** A state whose paragraph was just closed. */
  lemma FlushIsClear(c: Context, st: State, start: nat, end: nat)
    requires st.line < end <= LineCount(c) && Inv(c, st, start, end) && HeaderKnown(c, st) && Passed(c, st)
    requires ClassAt(c, st, end) != ParagraphText
    ensures FlushParagraph(c, st).Ok?
    ensures var r := FlushParagraph(c, st).value;
      Clear(c, r) && Due(c, r, ClassAt(c, st, end)) && r.header == st.header && r.line == st.line
  {
    hide Ready, LineStart, AllTold, PhaseOf, Content, HasAnchor, AnyCounts, Is, FlushParagraph, ParagraphTold, Tiled,
      S.AllWellNested, AllLand, ParagraphFits, Waiting, ParagraphEnds, ClassAt, SetOff, AuthorText, RevisionText, Due;
    ClassFacts(c, st, end);
    FlushTold(c, st, start, end);
    FlushParagraphKeeps(c, st, start, end);
    TurnIsDue(c, st, FlushParagraph(c, st).value, end);
  }

  lemma StopsKnown(c: Context, st: State, start: nat, end: nat)
    requires Inv(c, st, start, end) && HeaderKnown(c, st) && st.line < LineCount(c) && Passed(c, st)
    ensures var r := st.(header := StopAuthor(st.header));
      Inv(c, r, start, end) && HeaderKnown(c, r) && Passed(c, r) && Quiet(r)
  {
    hide Ready, LineStart, AllTold, PhaseOf, Content, HasAnchor, AnyCounts, Decided, SetOff, AuthorText, RevisionText,
      Inv;
    HeaderKeeps(c, st, StopAuthor(st.header), st.sawContent, start, end);
  }

  lemma WaitStepTold(c: Context, k: LineClass, st: State, start: nat, end: nat)
    requires st.line < end <= LineCount(c) && k == ClassAt(c, st, end)
      && k in {CommentText, BlankText, TitleLine, Metadata, Anchor, AttributeText}
    requires k == AttributeText ==> AttributeLine(Content(c, st.line)) && st.header.Some?
    requires Inv(c, st, start, end) && HeaderKnown(c, st) && Passed(c, st) && (Quiet(st) || k == BlankText)
    ensures StepKnown(c, WaitStep(c, k, st, end))
  {
    hide Ready, LineStart, HeaderKnown, Passed, Content, Inv, FlushParagraph, Clear, Due, ClassAt, Is, StepKnown,
      CommentStep, BlankStep, AttributeStep, MetadataStep, AttributeLine;
    var stopped := if k in {CommentText, BlankText} then st.(header := StopAuthor(st.header)) else st;
    StopsKnown(c, st, start, end);
    assert ClassAt(c, stopped, end) == k by { StoppedClass(c, st, end); }
    FlushIsClear(c, stopped, start, end);
    var flushed := FlushParagraph(c, stopped).value;
    ClassFacts(c, st, end);
    if k == CommentText {
      CommentStepTold(c, flushed, end);
    } else if k == BlankText {
      BlankStepTold(c, flushed, end);
    } else if k == AttributeText {
      AttributeStepTold(c, flushed, end);
    } else {
      MetadataStepTold(c, k, flushed, end);
    }
  }

  lemma StoppedClass(c: Context, st: State, end: nat)
    requires st.line < end <= LineCount(c)
    ensures ClassAt(c, st.(header := StopAuthor(st.header)), end) == ClassAt(c, st, end)
  {
    hide Ready, Content, SetOff, Classify;
  }

  // ---------------------------------------------------------------- blocks and paragraph lines

  lemma FlatStepTold(c: Context, k: LineClass, st: State, start: nat, end: nat)
    requires st.line < end <= LineCount(c) && k == ClassAt(c, st, end)
      && k in {Math, Break, LiteralParagraph, HeadingText, Directive, UnsupportedText}
    requires k == Math ==> st.line + 1 < end
    requires Inv(c, st, start, end) && HeaderKnown(c, st) && Passed(c, st) && Quiet(st)
    ensures StepKnown(c, FlatStep(c, k, st, end))
  {
    hide Ready, LineStart, HeaderKnown, Passed, Content, Inv, FlushParagraph, Clear, Due, ClassAt, Is, Known,
      CommitBlock, HeadingStep, SimpleBlock, MathBlock, Closes;
    FlushIsClear(c, st, start, end);
    var flushed := FlushParagraph(c, st).value;
    ClassFacts(c, st, end);
    if k == Math {
      var r := MathBlock(c, st.line, end);
      if r.Ok? && CommitBlock(flushed, r.value.0, [], r.value.1, end).Ok? {
        MathParts(c, st.line, end);
        MathTold(c, flushed, r.value.0, r.value.1, end);
      }
    } else if k == HeadingText {
      HeadingStepTold(c, flushed, end);
    } else {
      var r := SimpleBlock(c, k, st.line);
      if r.Ok? && CommitBlock(flushed, r.value.0, [], r.value.1, end).Ok? {
        SimpleParts(c, k, st.line);
        BodyBlockTold(c, flushed, k, r.value.0, [], r.value.1, end);
      }
    }
  }

  lemma MathParts(c: Context, i: nat, end: nat)
    requires i + 1 < end <= LineCount(c) && MathBlock(c, i, end).Ok?
    ensures var n := MathBlock(c, i, end).value.0;
      n.kind == S.MathBlock && |n.children| == 2 && n.range.start == LineStart(c, i)
  {
    hide Ready, Content, BodyOf;
  }

  lemma SimpleParts(c: Context, k: LineClass, i: nat)
    requires i < LineCount(c) && SimpleBlock(c, k, i).Ok?
    ensures var n := SimpleBlock(c, k, i).value.0; Closes(n) && n.range.start == LineStart(c, i)
  {
    hide Ready, Content, LiteralEnd;
  }

  lemma NestingStepTold(c: Context, k: LineClass, st: State, start: nat, end: nat, depth: nat)
    requires st.line < end <= LineCount(c) && k == ClassAt(c, st, end)
    requires (k == Delimited && DelimiterOf(Content(c, st.line)).Some?)
      || (k == ListText && MarkerOf(Content(c, st.line)).Some?)
    requires Inv(c, st, start, end) && HeaderKnown(c, st) && Passed(c, st) && Quiet(st)
    ensures StepKnown(c, NestingStep(c, k, st, end, depth))
  {
    hide Ready, LineStart, HeaderKnown, Passed, Content, Inv, FlushParagraph, Clear, Due, ClassAt, Is, Known,
      CommitBlock, DelimitedBlock, ListItems, ListNode, MergeTerms, Ascending, DelimiterOf, MarkerOf, Closes;
    FlushIsClear(c, st, start, end);
    var i, flushed := st.line, FlushParagraph(c, st).value;
    if k == Delimited {
      var r := DelimitedBlock(c, i, end, DelimiterOf(Content(c, i)).value, depth);
      if r.Ok? && CommitBlock(flushed, r.value.0, r.value.1, r.value.2, end).Ok? {
        DelimitedParts(c, i, end, depth);
        BodyBlockTold(c, flushed, k, r.value.0, r.value.1, r.value.2, end);
      }
    } else {
      var r := ListItems(c, i, end, depth);
      if r.Ok? && Ascending(r.value.0) {
        var l := ListNode(c, MergeTerms(r.value.0), LineStart(c, i));
        if l.Ok? && CommitBlock(flushed, l.value.0, l.value.1, r.value.1, end).Ok? {
          ListParts(c, MergeTerms(r.value.0), LineStart(c, i));
          BodyBlockTold(c, flushed, k, l.value.0, l.value.1, r.value.1, end);
        }
      }
    }
  }

  lemma DelimitedParts(c: Context, i: nat, end: nat, depth: nat)
    requires i < end <= LineCount(c) && DelimiterOf(Content(c, i)).Some?
    requires DelimitedBlock(c, i, end, DelimiterOf(Content(c, i)).value, depth).Ok?
    ensures var n := DelimitedBlock(c, i, end, DelimiterOf(Content(c, i)).value, depth).value.0;
      Closes(n) && n.range.start == LineStart(c, i)
  {
    hide Ready, Content, DelimiterOf, NestedBlocks, BodyOf;
  }

  lemma ListParts(c: Context, flat: seq<ListItem>, start: nat)
    requires ListNode(c, flat, start).Ok?
    ensures var n := ListNode(c, flat, start).value.0; Closes(n) && n.range.start == start
  {
    hide Ready, Ascending, ListsNodes;
  }

  lemma ParagraphLineTold(c: Context, st: State, start: nat, end: nat)
    requires st.line < end <= LineCount(c) && ClassAt(c, st, end) == ParagraphText
    requires Inv(c, st, start, end) && HeaderKnown(c, st) && Passed(c, st) && Quiet(st)
    ensures Known(c, BodySeen(st.(line := st.line + 1, paragraph := st.paragraph + [LineAt(c, st.line)])))
  {
    hide Ready, LineStart, AllTold, PhaseOf, Content, HasAnchor, AnyCounts, ClassAt, SetOff, AttributeLine, EndsIn,
      Decided, Tiled, AllLand, S.AllWellNested, ParagraphFits, PendingFits, Is, Due, AuthorText, RevisionText;
    ClassRule(c, st, end);
    if st.paragraph == [] {
      TurnIsDue(c, st, st, end);
      PlainIsDecided(c, st, ParagraphText, S.Paragraph);
    }
  }

  lemma BodyStepTold(c: Context, st: State, start: nat, end: nat, depth: nat)
    requires st.line < end <= LineCount(c) && Inv(c, st, start, end) && HeaderKnown(c, st) && Passed(c, st)
    requires Quiet(st) || AllBlank(Content(c, st.line))
    ensures StepKnown(c, BodyStep(c, st, end, depth))
  {
    hide Ready, HeaderKnown, Passed, Content, Inv, ClassAt, Is, Known, FlatStep, NestingStep, WaitStep, AllBlank,
      DelimiterOf, MarkerOf, AttributeLine, HasFormOf;
    ClassMeans(c, st, end);
    ClassFacts(c, st, end);
    var k := ClassAt(c, st, end);
    if k == ParagraphText {
      ParagraphLineTold(c, st, start, end);
    } else if k in {CommentText, BlankText, TitleLine, Metadata, Anchor, AttributeText} {
      WaitStepTold(c, k, st, start, end);
    } else if k in {Delimited, ListText} {
      NestingStepTold(c, k, st, start, end, depth);
    } else {
      FlatStepTold(c, k, st, start, end);
    }
  }

  // ---------------------------------------------------------------- whole documents

  /** An author or revision line behind the blocks so far. */
  lemma HeaderLineTold(c: Context, st: State, kind: S.Kind, h: Header)
    requires 0 <= Flushed(st) && PendingFits(c, st.pending, Flushed(st)) && st.line < LineCount(c)
    requires HeaderKnown(c, st) && Awaits(st) && h.open == st.header.value.open && h.started
    requires if kind == S.AuthorLine then st.header.value.author && AuthorText(c, st.line) && !h.author && h.revision
             else kind == S.RevisionLine && st.header.value.revision && RevisionText(c, st.line)
                  && !h.author && !h.revision
    ensures Known(c, st.(line := st.line + 1, header := Some(h),
                        blocks := st.blocks + [S.Leaf(kind, LineAt(c, st.line).full)]))
  {
    hide Ready, LineStart, AllTold, PhaseOf, HasAnchor, AnyCounts, Is, SetOff, AuthorText, RevisionText, PendingFits,
      HeadingLine, Content;
    var n := S.Leaf(kind, LineAt(c, st.line).full);
    LineSpan(c, st.line);
    assert Decided(c, st.blocks, kind, st.line, []);
    LeafTold(c, st, n);
    PhaseAppend(st.blocks, n);
  }

  lemma StepTold(c: Context, st: State, start: nat, end: nat, depth: nat)
    requires st.line < end <= LineCount(c) && Inv(c, st, start, end) && Known(c, st)
    ensures StepKnown(c, Step(c, st, end, depth))
  {
    hide Ready, HeaderKnown, Content, Inv, BodyStep, AllBlank, HeaderText, Passed, Known, Awaits,
      PendingFits, StepKnown;
    var content := Content(c, st.line);
    KnownParts(c, st);
    var h := st.header.value;
    if AllBlank(content) {
      assert Passed(c, st) by { BlankPasses(c, st); }
      BodyStepTold(c, st, start, end, depth);
    } else if h.author && HeaderText(content) && c.grammar.author(content) {
      StandsAt(c, st, start, end);
      HeaderLineTold(c, st, S.AuthorLine, h.(author := false, revision := true, started := true));
      assert StepKnown(c, Step(c, st, end, depth)) by { KnownOk(c, Step(c, st, end, depth).value); }
    } else if h.revision && HeaderText(content) {
      StandsAt(c, st, start, end);
      HeaderLineTold(c, st, S.RevisionLine, h.(author := false, revision := false, started := true));
      assert StepKnown(c, Step(c, st, end, depth)) by { KnownOk(c, Step(c, st, end, depth).value); }
    } else {
      var quiet := st.(header := Some(h.(author := false, revision := false)));
      HeaderKeeps(c, st, quiet.header, st.sawContent, start, end);
      QuietKnown(c, st, quiet);
      BodyStepTold(c, quiet, start, end, depth);
    }
  }

  lemma StandsAt(c: Context, st: State, start: nat, end: nat)
    requires Inv(c, st, start, end)
    ensures 0 <= Flushed(st) && PendingFits(c, st.pending, Flushed(st))
  {
    hide Ready, PendingFits, Tiled, ParagraphFits, AllLand, S.AllWellNested;
  }

  lemma BlankPasses(c: Context, st: State)
    requires st.line < LineCount(c) && AllBlank(Content(c, st.line))
    ensures Passed(c, st)
  {
    hide Ready, AllBlank, Content;
  }

  lemma QuietKnown(c: Context, st: State, quiet: State)
    requires st.line < LineCount(c) && Known(c, st) && st.header.Some?
    requires quiet == st.(header := Some(st.header.value.(author := false, revision := false)))
    requires !(st.header.value.author && AuthorText(c, st.line))
    requires !(st.header.value.revision && RevisionText(c, st.line))
    ensures HeaderKnown(c, quiet) && Passed(c, quiet)
  {
    hide Ready, AllTold, PhaseOf, HasAnchor, AnyCounts, Decided, AuthorText, RevisionText, Content, SetOff;
  }

  lemma {:induction false} SequenceTold(c: Context, st: State, start: nat, end: nat, depth: nat)
    requires end == LineCount(c) && Inv(c, st, start, end) && Known(c, st) && StopsAt(c, end)
    ensures Sequence(c, st, end, depth).Ok? ==> AllTold(c, Sequence(c, st, end, depth).value.blocks)
    decreases if st.line < end then end - st.line else 0
  {
    hide Ready, Inv, Known, Step, FlushParagraph, FlushOrphan, AllTold, StopsAt;
    EndInside(c, st, start, end);
    if end <= st.line {
      LastTold(c, st, start, end);
    } else {
      StepTold(c, st, start, end, depth);
      StepKeeps(c, st, start, end, depth);
      var r := Step(c, st, end, depth);
      if r.Ok? {
        SequenceTold(c, r.value, start, end, depth);
      }
    }
  }

  lemma KnownParts(c: Context, st: State)
    requires Known(c, st)
    ensures HeaderKnown(c, st) && st.header.Some? && Awaits(st)
  {
    hide Ready, AllTold, ParagraphTold, PhaseOf, AnyCounts;
  }

  lemma KnownOk(c: Context, st: State)
    requires Known(c, st)
    ensures StepKnown(c, Ok(st))
  {
    hide Ready, Known;
  }

  lemma LastTold(c: Context, st: State, start: nat, end: nat)
    requires end == LineCount(c) && Inv(c, st, start, end) && Known(c, st) && end <= st.line
    ensures FlushParagraph(c, st).Ok? ==> AllTold(c, FlushOrphan(FlushParagraph(c, st).value).blocks)
  {
    hide Ready, Inv, AllTold, FlushParagraph, FlushOrphan, Agrees, ParagraphTold, Awaits;
    EndInside(c, st, start, end);
    FlushTold(c, st, start, end);
    FlushParagraphKeeps(c, st, start, end);
    var flushed := FlushParagraph(c, st).value;
    StandsAt(c, flushed, start, end);
    OrphanTold(c, flushed);
  }

  /** In a document that is parsed every block is what its first line says at its place: a title exactly
      before all content, an author line exactly directly behind a title, a revision line exactly
      directly behind an author line, an attribute entry exactly in the open header or set off from
      text. */
  lemma HeaderLinesAre(c: Context)
    ensures Blocks(c).Ok? ==> AllTold(c, Blocks(c).value.blocks)
  {
    hide Ready, Sequence, Inv, AllTold, StopsAt;
    RootStops(c);
    InitialInv(c, 0, true, LineCount(c));
    assert Known(c, Initial(0, true)) by { NothingIsTold(c); }
    SequenceTold(c, Initial(0, true), 0, LineCount(c), 1);
  }

  lemma NothingIsTold(c: Context)
    ensures Known(c, Initial(0, true))
  {
    hide Ready, Told;
  }

  // ---------------------------------------------------------------- nested blocks

  predicate NoHeader(s: seq<S.Node>) { forall i :: 0 <= i < |s| ==> !HeaderKind(s[i].kind) }

  /** Inside other blocks there is no header. */
  predicate Bare(st: State) { st.header.None? && NoHeader(st.blocks) && NoHeader(st.pending.syntax) }

  predicate StaysBare(r: Result<State>) { r.Ok? ==> Bare(r.value) }

  lemma NoHeaderAppend(a: seq<S.Node>, b: seq<S.Node>)
    ensures NoHeader(a + b) <==> NoHeader(a) && NoHeader(b)
  {
    var t := a + b;
    assert forall i :: 0 <= i < |b| ==> t[|a| + i] == b[i];
    assert forall i :: 0 <= i < |a| ==> t[i] == a[i];
  }

  lemma AttachBare(st: State)
    requires Bare(st)
    ensures StaysBare(AttachPending(st))
  {
  }

  lemma FlushBare(c: Context, st: State)
    requires Bare(st)
    ensures StaysBare(FlushParagraph(c, st))
    ensures FlushParagraph(c, st).Ok? ==> FlushParagraph(c, st).value.line == st.line
  {
    hide Ready, ParagraphNode, NoHeader, AttachPending;
    if st.paragraph != [] && ParagraphNode(c, st.paragraph).Ok? {
      var (node, body) := ParagraphNode(c, st.paragraph).value;
      ParagraphKind(c, st.paragraph);
      assert NoHeader([node]) by { OneBare(node); }
      NoHeaderAppend(st.blocks, [node]);
      AttachBare(st.(paragraph := [], blocks := st.blocks + [node], texts := st.texts + [body]));
    }
  }

  lemma OneBare(n: S.Node)
    ensures NoHeader([n]) <==> !HeaderKind(n.kind)
  {
    assert [n][0] == n;
  }

  lemma OrphanBare(st: State)
    requires Bare(st)
    ensures Bare(FlushOrphan(st)) && FlushOrphan(st).line == st.line
  {
    hide NoHeader;
    if st.pending.range.Some? {
      var r := st.pending.range.value;
      var k := Attached(st.pending.syntax, r.end);
      var orphan := S.Node(S.Unsupported, r, [S.Node(S.Unknown, r, st.pending.syntax[..k])]);
      OneBare(orphan);
      NoHeaderAppend(st.blocks, [orphan]);
      assert st.pending.syntax == st.pending.syntax[..k] + st.pending.syntax[k..];
      NoHeaderAppend(st.pending.syntax[..k], st.pending.syntax[k..]);
      NoHeaderAppend(st.blocks + [orphan], st.pending.syntax[k..]);
      assert NoHeader([]) by { NoneBare(); }
    }
  }

  lemma NoneBare()
    ensures NoHeader([])
  {
  }

  lemma CommitBare(st: State, node: S.Node, texts: seq<TextRange>, next: nat, end: nat)
    requires Bare(st) && !HeaderKind(node.kind)
    ensures StaysBare(CommitBlock(st, node, texts, next, end))
  {
    hide NoHeader, AttachPending;
    OneBare(node);
    NoHeaderAppend(st.blocks, [node]);
    var moved := Commit(st, next, end);
    if moved.Ok? {
      AttachBare(moved.value.(blocks := moved.value.blocks + [node], texts := moved.value.texts + texts));
    }
  }

  lemma WaitBare(c: Context, k: LineClass, st: State, end: nat)
    requires st.line < end <= LineCount(c) && k in {CommentText, BlankText, TitleLine, Metadata, Anchor}
    requires Bare(st)
    ensures StaysBare(WaitStep(c, k, st, end))
  {
    hide Ready, NoHeader, FlushParagraph, FlushOrphan, LineAt;
    FlushBare(c, st);
    var flushed := FlushParagraph(c, st);
    if flushed.Ok? {
      var fl, full := flushed.value, LineAt(c, st.line).full;
      OrphanBare(fl);
      var kind := if k == CommentText then S.CommentLine else if k == BlankText then S.BlankLine else WaitingKind(k);
      var n := S.Leaf(kind, full);
      OneBare(n);
      NoHeaderAppend(fl.blocks, [n]);
      NoHeaderAppend(FlushOrphan(fl).blocks, [n]);
      NoHeaderAppend(fl.pending.syntax, [n]);
    }
  }

  lemma FlatBare(c: Context, k: LineClass, st: State, end: nat)
    requires st.line < end <= LineCount(c)
      && k in {Math, Break, LiteralParagraph, HeadingText, Directive, UnsupportedText}
    requires k == Math ==> st.line + 1 < end
    requires Bare(st)
    ensures StaysBare(FlatStep(c, k, st, end))
  {
    hide Ready, NoHeader, FlushParagraph, CommitBlock, MathBlock, SimpleBlock, HeadingOf, Content, PlainNodes, LineAt;
    FlushBare(c, st);
    var flushed := FlushParagraph(c, st);
    if flushed.Ok? {
      var fl := flushed.value;
      if k == Math {
        if MathBlock(c, st.line, end).Ok? {
          MathParts(c, st.line, end);
          CommitBare(fl, MathBlock(c, st.line, end).value.0, [], MathBlock(c, st.line, end).value.1, end);
        }
      } else if k == HeadingText {
        CommitBare(fl, HeadingNode(c, st.line, false), [], st.line + 1, end);
      } else if SimpleBlock(c, k, st.line).Ok? {
        SimpleParts(c, k, st.line);
        CommitBare(fl, SimpleBlock(c, k, st.line).value.0, [], SimpleBlock(c, k, st.line).value.1, end);
      }
    }
  }

  lemma NestingBare(c: Context, k: LineClass, st: State, end: nat, depth: nat)
    requires st.line < end <= LineCount(c) && Bare(st)
    requires (k == Delimited && DelimiterOf(Content(c, st.line)).Some?)
      || (k == ListText && MarkerOf(Content(c, st.line)).Some?)
    ensures StaysBare(NestingStep(c, k, st, end, depth))
  {
    hide Ready, NoHeader, FlushParagraph, CommitBlock, DelimitedBlock, ListItems, ListNode, MergeTerms, Ascending,
      Content, LineAt, LineStart, DelimiterOf, MarkerOf;
    FlushBare(c, st);
    var i, flushed := st.line, FlushParagraph(c, st);
    if flushed.Ok? {
      if k == Delimited {
        var r := DelimitedBlock(c, i, end, DelimiterOf(Content(c, i)).value, depth);
        if r.Ok? {
          DelimitedParts(c, i, end, depth);
          CommitBare(flushed.value, r.value.0, r.value.1, r.value.2, end);
        }
      } else {
        var r := ListItems(c, i, end, depth);
        if r.Ok? && Ascending(r.value.0) && ListNode(c, MergeTerms(r.value.0), LineStart(c, i)).Ok? {
          ListParts(c, MergeTerms(r.value.0), LineStart(c, i));
          var l := ListNode(c, MergeTerms(r.value.0), LineStart(c, i)).value;
          CommitBare(flushed.value, l.0, l.1, r.value.1, end);
        }
      }
    }
  }

  lemma StepBare(c: Context, st: State, end: nat, depth: nat)
    requires st.line < end <= LineCount(c) && Bare(st)
    ensures StaysBare(Step(c, st, end, depth))
  {
    hide Ready, NoHeader, ClassAt, WaitStep, FlatStep, NestingStep, Content, LineAt, DelimiterOf, MarkerOf,
      AttributeLine, AllBlank;
    ClassMeans(c, st, end);
    var k := ClassAt(c, st, end);
    if k in {CommentText, BlankText, TitleLine, Metadata, Anchor} {
      WaitBare(c, k, st, end);
    } else if k in {Delimited, ListText} {
      NestingBare(c, k, st, end, depth);
    } else if k in {Math, Break, LiteralParagraph, HeadingText, Directive, UnsupportedText} {
      FlatBare(c, k, st, end);
    }
  }

  lemma {:induction false} SequenceBare(c: Context, st: State, end: nat, depth: nat)
    requires end <= LineCount(c) && Bare(st)
    ensures Sequence(c, st, end, depth).Ok? ==> NoHeader(Sequence(c, st, end, depth).value.blocks)
    decreases if st.line < end then end - st.line else 0
  {
    hide Ready, NoHeader, Step, FlushParagraph, FlushOrphan;
    if end <= st.line {
      FlushBare(c, st);
      if FlushParagraph(c, st).Ok? {
        OrphanBare(FlushParagraph(c, st).value);
      }
    } else {
      StepBare(c, st, end, depth);
      if Step(c, st, end, depth).Ok? {
        SequenceBare(c, Step(c, st, end, depth).value, end, depth);
      }
    }
  }

  /** The body of a block holds no title, no author or revision line and no attribute entry. */
  lemma NestedIsBare(c: Context, start: nat, end: nat, depth: nat)
    requires start <= end <= LineCount(c) && NestedBlocks(c, start, end, depth).Ok?
    ensures NoHeader(NestedBlocks(c, start, end, depth).value.blocks)
  {
    hide Ready, Sequence, NoHeader;
    NoneBare();
    if start < end {
      SequenceBare(c, Initial(start, false), end, depth);
    }
  }
}
