/** Classification of one source line, independent of parser state. */
module BlockGrammar {
  import opened Text
  import opened Source
  import ListTree

  datatype DelimitedKind =
    | OpenBlock | TableBlock | CommentBlock | ExampleBlock | Listing | LiteralText | Sidebar | Pass | Quote

  datatype LineClass =
    | Math | Delimited | Anchor | TitleLine | Metadata | CommentText | BlankText | AttributeText | Break
    | LiteralParagraph | HeadingText | ListText | Directive | UnsupportedText | ParagraphText

  /** Line forms whose grammar is not modelled: math styles, preprocessor directives and author lines. */
  datatype Grammar = Grammar(math: Text -> bool, directive: Text -> bool, author: Text -> bool)

  // ---------------------------------------------------------------- small tests

  predicate Starts(c: Text, p: string) { StartsWith(c, 0, p) }

  predicate Ends(c: Text, p: string) {
    |p| <= |c| && c[|c| - |p|..] == p
  }

  predicate StartsBlank(c: Text) { c != [] && Blank(c[0]) }

  predicate AllBlank(c: Text) {
    forall i :: 0 <= i < |c| ==> Blank(c[i])
  }

  function Run(c: Text, ch: char): (r: nat)
    ensures r <= |c| && (r < |c| ==> c[r] != ch) && forall i :: 0 <= i < r ==> c[i] == ch
  {
    if c != [] && c[0] == ch then
      var rest := Run(c[1..], ch);
      assert forall i :: 1 <= i < 1 + rest ==> c[i] == c[1..][i - 1];
      1 + rest
    else 0
  }

  function BlankRun(c: Text): (r: nat)
    ensures r <= |c| && (r < |c| ==> !Blank(c[r]))
  {
    if c != [] && Blank(c[0]) then 1 + BlankRun(c[1..]) else 0
  }

  /** The offset after the last unit that is not a blank. */
  function TrimmedEnd(c: Text): (r: nat)
    ensures r <= |c| && (r > 0 ==> !Blank(c[r - 1])) && forall i :: r <= i < |c| ==> Blank(c[i])
  {
    if c != [] && Blank(c[|c| - 1]) then TrimmedEnd(c[..|c| - 1]) else |c|
  }

  // ---------------------------------------------------------------- delimiters

  predicate Repeated(c: Text, ch: char) {
    4 <= |c| && Run(c, ch) == |c|
  }

  /** One character other than `=`, then three equals signs. */
  predicate TableDelimiter(c: Text) {
    3 < |c| && Ends(c, "===") && c[0] != '=' && CharLen(c[0]) == |c| - 3
  }

  function DelimiterOf(c: Text): (r: Option<DelimitedKind>) {
    if c == "--" then Some(OpenBlock)
    else if c == "|===" || TableDelimiter(c) then Some(TableBlock)
    else if Repeated(c, '/') then Some(CommentBlock)
    else if Repeated(c, '=') then Some(ExampleBlock)
    else if Repeated(c, '-') then Some(Listing)
    else if Repeated(c, '.') then Some(LiteralText)
    else if Repeated(c, '*') then Some(Sidebar)
    else if Repeated(c, '+') then Some(Pass)
    else if Repeated(c, '_') then Some(Quote)
    else None
  }

  /** Whether the body of a block is itself a sequence of blocks. */
  predicate Compound(k: DelimitedKind) {
    k.OpenBlock? || k.ExampleBlock? || k.Sidebar? || k.Quote?
  }

  lemma CompoundIsFlush(c: Text)
    requires DelimiterOf(c).Some? && Compound(DelimiterOf(c).value)
    ensures c != [] && !Blank(c[0])
  {
  }

  // ---------------------------------------------------------------- list markers

  datatype Marker = Marker(kind: ListTree.ListKind, depth: nat, start: nat, end: nat, text: nat, term: Option<nat>)

  /** Where the parts of a marker lie in its line: each cut has an ASCII unit beside it. */
  predicate MarkerFits(m: Marker, c: Text) {
    && 1 <= m.depth && m.start < m.end <= m.text <= |c|
    && c[m.start] < '\U{80}' && c[m.end - 1] < '\U{80}' && c[m.text - 1] < '\U{80}'
    && (m.term.Some? ==> m.term.value == m.start && 0 < m.start)
  }

  lemma MarkerLands(m: Marker, c: Text)
    requires Valid(c) && MarkerFits(m, c)
    ensures Boundary(c, m.start) && Boundary(c, m.end) && Boundary(c, m.text)
  {
    AsciiIsWhole(c, m.start);
    AsciiIsWhole(c, m.end - 1);
    AsciiIsWhole(c, m.text - 1);
  }

  function Digits(c: Text): (r: nat)
    ensures r <= |c|
  {
    if c != [] && '0' <= c[0] <= '9' then 1 + Digits(c[1..]) else 0
  }

  function Decimal(c: Text): nat
    requires Digits(c) == |c|
    decreases |c|
  {
    if c == [] then 0
    else
      DigitsInit(c);
      Decimal(c[..|c| - 1]) * 10 + (c[|c| - 1] as nat - '0' as nat)
  }

  lemma {:induction false} DigitsInit(c: Text)
    requires Digits(c) == |c| && c != []
    ensures Digits(c[..|c| - 1]) == |c| - 1 && '0' <= c[|c| - 1] <= '9'
  {
    if |c| > 1 {
      DigitsInit(c[1..]);
      assert c[..|c| - 1][1..] == c[1..][..|c| - 2];
    }
  }

  /** Whether `c` is read as a 32-bit unsigned number. */
  predicate Unsigned32(c: Text) {
    var digits := if c != [] && c[0] == '+' then c[1..] else c;
    digits != [] && Digits(digits) == |digits| && Decimal(digits) < 0x1_0000_0000
  }

  function SymbolMarker(c: Text): (r: Option<Marker>)
    requires c != [] && c[0] in "*."
    ensures r.Some? ==> MarkerFits(r.value, c)
  {
    var depth := Run(c, c[0]);
    if depth < |c| && Blank(c[depth]) then
      Some(Marker(if c[0] == '*' then ListTree.Unordered else ListTree.Ordered, depth, 0, depth, depth + 1, None))
    else None
  }

  function NumberMarker(c: Text): (r: Option<Marker>)
    requires c != [] && '0' <= c[0] <= '9'
    ensures r.Some? ==> MarkerFits(r.value, c)
  {
    var digits := Digits(c);
    if digits + 1 < |c| && c[digits] == '.' && Blank(c[digits + 1]) then
      Some(Marker(ListTree.Ordered, 1, 0, digits + 1, digits + 2, None))
    else None
  }

  function CalloutMarker(c: Text): (r: Option<Marker>)
    requires c != [] && c[0] == '<'
    ensures r.Some? ==> MarkerFits(r.value, c)
  {
    match NextUnit(c, 0, '>')
    case None => None
    case Some(close) =>
      if (c[1..close] == "." || Unsigned32(c[1..close])) && close + 1 < |c| && Blank(c[close + 1]) then
        Some(Marker(ListTree.Callout, 1, 0, close + 1, close + 2, None))
      else None
  }

  function TermWidth(c: Text, i: nat): (r: nat)
    ensures r != 0 ==> 2 <= r <= 4 && i + r <= |c| && c[i] < '\U{80}' && c[i + r - 1] < '\U{80}'
  {
    if StartsWith(c, i, "::::") then assert c[i..i + 4][0] == c[i] && c[i..i + 4][3] == c[i + 3]; 4
    else if StartsWith(c, i, ":::") then assert c[i..i + 3][0] == c[i] && c[i..i + 3][2] == c[i + 2]; 3
    else if StartsWith(c, i, "::") || StartsWith(c, i, ";;") then
      assert c[i..i + 2][0] == c[i] && c[i..i + 2][1] == c[i + 1];
      2
    else 0
  }

  /** The first `::`, `:::`, `::::` or `;;` after a term and before a blank or the end. */
  function TermMarker(c: Text, i: nat): (r: Option<Marker>)
    requires i <= |c|
    ensures r.Some? ==> MarkerFits(r.value, c)
    decreases |c| - i
  {
    if i == |c| then None
    else
      var after := i + TermWidth(c, i);
      if i < after && 0 < i && (after == |c| || Blank(c[after])) then
        var text := if after < |c| then after + 1 else after;
        Some(Marker(ListTree.Description, after - i - 1, i, after, text, Some(i)))
      else TermMarker(c, i + 1)
  }

  function MarkerOf(c: Text): (r: Option<Marker>)
    ensures r.Some? ==> MarkerFits(r.value, c)
  {
    hide MarkerFits;
    if c == [] then None
    else if c[0] in "*." then SymbolMarker(c)
    else if '0' <= c[0] <= '9' then NumberMarker(c)
    else if c[0] == '<' then CalloutMarker(c)
    else TermMarker(c, 0)
  }

  // ---------------------------------------------------------------- metadata and attributes

  predicate AnchorLine(c: Text) {
    4 <= |c| && Starts(c, "[[") && Ends(c, "]]")
  }

  predicate BlockTitle(c: Text) {
    var value := if Starts(c, "..") then c[2..] else if Starts(c, ".") then c[1..] else [];
    value != [] && !Blank(value[0]) && value[0] != '.'
  }

  predicate BlockAttributes(c: Text) {
    2 <= |c| && c[0] == '[' && c[|c| - 1] == ']'
    && (2 < |c| ==> c[1] != '[' && c[|c| - 2] != ']')
  }

  /** `:name:` with anything after it. */
  predicate AttributeLine(c: Text) {
    c != [] && c[0] == ':' && NextUnit(c, 1, ':').Some?
  }

  predicate NameStart(c: char) {
    'a' <= c <= 'z' || 'A' <= c <= 'Z' || '0' <= c <= '9' || c == '_'
  }

  predicate AttributeName(c: Text) {
    c != [] && NameStart(c[0]) && forall i :: 0 <= i < |c| ==> NameStart(c[i]) || c[i] == '-'
  }

  /** Whether an attribute line unsets its attribute. */
  predicate Unsets(c: Text)
    requires AttributeLine(c)
  {
    var raw := c[1..NextUnit(c, 1, ':').value];
    raw != [] &&
    if raw[0] == '!' then AttributeName(raw[1..]) else raw[|raw| - 1] == '!' && AttributeName(raw[..|raw| - 1])
  }

  predicate Continues(c: Text) { Ends(c, " \\") }

  /** Unsupported forms, after the blanks the line starts with. */
  predicate UnsupportedForm(c: Text) {
    var t := c[BlankRun(c)..];
    t != [] && (t[0] == '[' || (t[0] in "-.=_" && Repeated(t, t[0])) || Starts(t, "* ") || Starts(t, ". "))
  }

  /** Classes are tried in a fixed order; what no class claims is paragraph text. */
  function Classify(g: Grammar, c: Text, next: Option<Text>, attributePosition: bool): LineClass {
    if BlockAttributes(c) && g.math(c) && next == Some("++++") then Math
    else if DelimiterOf(c).Some? then Delimited
    else if AnchorLine(c) then Anchor
    else if BlockTitle(c) then TitleLine
    else if BlockAttributes(c) then Metadata
    else if Starts(c, "//") then CommentText
    else if AllBlank(c) then BlankText
    else if attributePosition && AttributeLine(c) then AttributeText
    else if c == "'''" || c == "<<<" then Break
    else if StartsBlank(c) then LiteralParagraph
    else if Starts(c, "=") then HeadingText
    else if MarkerOf(c).Some? then ListText
    else if g.directive(c) then Directive
    else if UnsupportedForm(c) then UnsupportedText
    else ParagraphText
  }

  // ---------------------------------------------------------------- what the classes mean

  /** The form that lines of a class have. Paragraph text needs none. */
  predicate HasFormOf(g: Grammar, c: Text, next: Option<Text>, k: LineClass) {
    match k
    case Math => BlockAttributes(c) && g.math(c) && next == Some("++++")
    case Delimited => DelimiterOf(c).Some?
    case Anchor => AnchorLine(c)
    case TitleLine => BlockTitle(c)
    case Metadata => BlockAttributes(c)
    case CommentText => Starts(c, "//")
    case BlankText => AllBlank(c)
    case AttributeText => AttributeLine(c)
    case Break => c == "'''" || c == "<<<"
    case LiteralParagraph => StartsBlank(c)
    case HeadingText => Starts(c, "=")
    case ListText => MarkerOf(c).Some?
    case Directive => g.directive(c)
    case UnsupportedText => UnsupportedForm(c)
    case ParagraphText => true
  }

  /** Which class goes first where a line has several forms. */
  function Rank(k: LineClass): nat {
    match k
    case Math => 0 case Delimited => 1 case Anchor => 2 case TitleLine => 3 case Metadata => 4
    case CommentText => 5 case BlankText => 6 case AttributeText => 7 case Break => 8
    case LiteralParagraph => 9 case HeadingText => 10 case ListText => 11 case Directive => 12
    case UnsupportedText => 13 case ParagraphText => 14
  }

  /** The line has the form of the class, and none that goes first; whether it may be a document
      attribute is left open. */
  ghost predicate FirstForm(g: Grammar, c: Text, next: Option<Text>, k: LineClass) {
    && HasFormOf(g, c, next, k)
    && forall j :: Rank(j) < Rank(k) && j != AttributeText ==> !HasFormOf(g, c, next, j)
  }

  /** A line has a class exactly when it has the form of the class and none that goes first; document
      attributes count only where they may stand. */
  lemma ClassIff(g: Grammar, c: Text, next: Option<Text>, position: bool, k: LineClass)
    ensures Classify(g, c, next, position) == k <==>
      && HasFormOf(g, c, next, k) && (k == AttributeText ==> position)
      && forall j :: Rank(j) < Rank(k) && (j == AttributeText ==> position) ==> !HasFormOf(g, c, next, j)
  {
    hide DelimiterOf, AnchorLine, BlockTitle, BlockAttributes, Starts, AllBlank, AttributeLine, StartsBlank, MarkerOf,
      UnsupportedForm;
    var at := Classify(g, c, next, position);
    assert HasFormOf(g, c, next, at) && (at == AttributeText ==> position);
    forall j | Rank(j) < Rank(at) && (j == AttributeText ==> position) ensures !HasFormOf(g, c, next, j) {
    }
    assert Rank(k) < Rank(at) || Rank(at) < Rank(k) || k == at;
  }

  /** The class of a line is its first form. */
  lemma ClassIsFirst(g: Grammar, c: Text, next: Option<Text>, position: bool)
    ensures FirstForm(g, c, next, Classify(g, c, next, position))
  {
    hide HasFormOf, Classify, Rank;
    ClassIff(g, c, next, position, Classify(g, c, next, position));
  }

  /** For every class but math blocks the next line does not matter. */
  lemma NextIsIrrelevant(g: Grammar, c: Text, next: Option<Text>, k: LineClass)
    requires FirstForm(g, c, next, k) && k != Math
    ensures FirstForm(g, c, None, k)
  {
    forall j | Rank(j) < Rank(k) && j != AttributeText ensures !HasFormOf(g, c, None, j) {
      assert !HasFormOf(g, c, next, j);
    }
  }

  lemma LastOf(c: Text, p: string)
    requires p != []
    ensures Ends(c, p) ==> c[|c| - 1] == p[|p| - 1]
  {
    if |p| <= |c| {
      assert c[|c| - |p|..][|p| - 1] == c[|c| - 1];
    }
  }

  /** A line of blanks has no other form. */
  lemma BlankHasNoForm(c: Text)
    requires AllBlank(c)
    ensures DelimiterOf(c).None? && !AnchorLine(c) && !BlockTitle(c) && !BlockAttributes(c) && !Starts(c, "//")
  {
    if c != [] {
      assert Blank(c[0]) && Blank(c[|c| - 1]);
      LastOf(c, "===");
    }
  }

  /** Every class but `Math` is decided by the line alone, apart from its attribute position. */
  lemma ClassOfLine(g: Grammar, c: Text, next: Option<Text>, attributePosition: bool)
    ensures var k := Classify(g, c, next, attributePosition);
      && (k == ParagraphText || k == LiteralParagraph ==> k == Classify(g, c, None, false))
      && (k == ParagraphText ==> !AllBlank(c) && !StartsBlank(c))
      && (k == BlankText <==> AllBlank(c))
      && (k == Delimited <==> DelimiterOf(c).Some? && !(BlockAttributes(c) && g.math(c) && next == Some("++++")))
  {
    hide AllBlank, DelimiterOf, AnchorLine, BlockTitle, BlockAttributes, AttributeLine, MarkerOf,
      UnsupportedForm, Starts;
    if AllBlank(c) {
      BlankHasNoForm(c);
    }
  }

  // ---------------------------------------------------------------- author and admonition lines

  /** A control character: below space, DEL, or U+0080 to U+009F. */
  predicate HasControl(c: Text) {
    exists i :: 0 <= i < |c| &&
      (c[i] < ' ' || c[i] == '\U{7F}' || (c[i] == '\U{C2}' && i + 1 < |c| && c[i + 1] < '\U{A0}'))
  }

  /** Whether a line may be read as an author or revision line. */
  predicate HeaderText(c: Text) {
    && !HasControl(c)
    && c != [] && c[0] !in ":[="
    && DelimiterOf(c).None?
    && !Starts(c, "//")
  }

  const ADMONITIONS: seq<string> := ["NOTE", "TIP", "IMPORTANT", "WARNING", "CAUTION"]
}
