/** What a macro means, found by forward searches in the text alone, and that the scanner makes just that. */
module MacroNodes {
  import opened Text
  import opened InlineModel
  import opened InlineGrammar
  import opened InlineRecognition
  import opened InlineCandidates
  import opened InlineParser
  import opened InlineRun
  import R = MarkerNodes

  /** A node and where it ends; an opening that nothing closes; or no macro. */
  datatype Meant = Node(node: Inline, end: nat) | Unclosed | Nothing

  function Between(base: nat, from: nat, to: nat): TextRange {
    Range(base + from, if from <= to then base + to else base + from)
  }

  function Cut(v: Text, from: nat, to: nat): Text {
    if from <= to <= |v| then v[from..to] else []
  }

  /** The inlines of a label. */
  function Label(t: WordTable, v: Segment, base: nat, cfg: Config, depth: nat, from: nat, to: nat): seq<Inline> {
    if Valid(Cut(v, from, to)) then ParsedSegment(t, Cut(v, from, to), base + from, cfg, depth + 1).inlines else []
  }

  function MacroOver(v: Text, base: nat, kind: MacroKind, form: MacroForm, open: nat, s: nat, e: nat, from: nat,
      to: nat, end: nat): Meant {
    Node(Macro(kind, form, Between(base, open, end), Between(base, s, e), Cut(v, s, e), Between(base, from, to)), end)
  }

  // ---------------------------------------------------------------- the forms

  /** `[[id,text]]`, or with three brackets; the text goes from the first comma to the brackets. */
  function AnchorMeant(v: Text, base: nat, open: nat, w: nat, kind: MacroKind, closers: string): Meant {
    match Find(v, open + w, closers)
    case None => Nothing
    case Some(close) =>
      match NextUnit(v, open + w, ',')
      case Some(comma) =>
        if comma < close then MacroOver(v, base, kind, InlineForm, open, open + w, comma, comma + 1, close, close + w)
        else MacroOver(v, base, kind, InlineForm, open, open + w, close, close, close, close + w)
      case None => MacroOver(v, base, kind, InlineForm, open, open + w, close, close, close, close + w)
  }

  /** `<<id,label>>` */
  function ShortMeant(t: WordTable, v: Segment, base: nat, cfg: Config, depth: nat, open: nat): Meant {
    match Find(v, open + 2, ">>")
    case None => Unclosed
    case Some(close) =>
      var comma := NextUnit(v, open + 2, ',');
      Node(
        if comma.Some? && comma.value < close then
          Reference(Between(base, open, close + 2), Between(base, open + 2, comma.value),
                    Some(Between(base, comma.value + 1, close)), Label(t, v, base, cfg, depth, comma.value + 1, close))
        else Reference(Between(base, open, close + 2), Between(base, open + 2, close), None, []),
        close + 2)
  }

  /** Formulas and pass macros; a formula that is not closed goes on to the end. */
  function VerbatimMeant(v: Text, base: nat, open: nat, n: Named): Meant
    requires n.FormulaName? || n.PassName?
  {
    var s := open + n.width;
    match NextUnit(v, s, ']')
    case Some(close) =>
      var range, content := Between(base, open, close + 1), Between(base, s, close);
      Node(if n.PassName? then Passthrough(PassMacro, range, content, Cut(v, s, close))
           else Formula(range, content, Cut(v, s, close), n.language, true), close + 1)
    case None =>
      if n.PassName? then Unclosed
      else Node(Formula(Between(base, open, |v|), Between(base, s, |v|), Cut(v, s, |v|), n.language, false), |v|)
  }

  /** `name:target[text]`, with no white space in the target. */
  function NamedMeant(t: WordTable, v: Segment, base: nat, cfg: Config, depth: nat, open: nat, n: Named): Meant
    requires n.XrefName? || n.LinkName? || n.StandardName?
  {
    var s := open + n.width;
    match NextUnit(v, s, '[')
    case None => Unclosed
    case Some(b) =>
      if AnySpace(v, s, b) then Nothing
      else
        match ClosesAt(v, n, b)
        case None => Unclosed
        case Some(e) =>
          var range, content, caption := Between(base, open, e + 1), Between(base, s, b), Some(Between(base, b + 1, e));
          if n.XrefName? then Node(Reference(range, content, caption, Label(t, v, base, cfg, depth, b + 1, e)), e + 1)
          else if n.LinkName? then Node(Link(range, content, caption, Label(t, v, base, cfg, depth, b + 1, e)), e + 1)
          else MacroOver(v, base, n.kind, n.form, open, s, b, b + 1, e, e + 1)
  }

  /** A URL: up to white space or a bracket, without the punctuation it ends in; a bracket directly
      behind it opens its label. */
  function UrlMeant(t: WordTable, v: Segment, base: nat, cfg: Config, depth: nat, open: nat): Meant
    requires open < |v|
  {
    match SchemeEnd(v, open)
    case None => Nothing
    case Some(scheme) =>
      var e := TrimBack(v, open, LabelOrSpace(v, scheme), TrailingPunctuation);
      if e <= scheme then Nothing
      else if e < |v| && v[e] == '[' then
        match NextUnit(v, e + 1, ']')
        case None => Unclosed
        case Some(close) =>
          Node(Link(Between(base, open, close + 1), Between(base, open, e), Some(Between(base, e + 1, close)),
                    Label(t, v, base, cfg, depth, e + 1, close)), close + 1)
      else Node(Link(Between(base, open, e), Between(base, open, e), None, []), e)
  }

  /** The forms are tried in this order. */
  function MeantAt(t: WordTable, v: Segment, base: nat, cfg: Config, depth: nat, open: nat): Meant
    requires open < |v|
  {
    var named := NamedPrefix(v, open);
    if StartsWith(v, open, "[[[") && Find(v, open + 3, "]]]").Some? then
      AnchorMeant(v, base, open, 3, BibliographyAnchor, "]]]")
    else if StartsWith(v, open, "[[") && Find(v, open + 2, "]]").Some? then AnchorMeant(v, base, open, 2, Anchor, "]]")
    else if named.Some? && (named.value.FormulaName? || named.value.PassName?) then
      VerbatimMeant(v, base, open, named.value)
    else if StartsWith(v, open, "<<") then ShortMeant(t, v, base, cfg, depth, open)
    else if named.Some? then NamedMeant(t, v, base, cfg, depth, open, named.value)
    else
      match EmailEnd(v, open)
      case Some(end) => MacroOver(v, base, Email, InlineForm, open, open, end, end, end, end)
      case None => UrlMeant(t, v, base, cfg, depth, open)
  }

  // ---------------------------------------------------------------- what is recognised and made

  /** What recognition and lowering give together. */
  ghost predicate Gives(t: WordTable, v: Segment, base: nat, cfg: Config, depth: nat, open: nat,
      r: Recognition<MacroToken>, m: Meant)
    requires open < |v| && Boundary(v, open)
  {
    match r
    case Matched(k) => MacroOk(v, k) && m == Node(LowerMacro(t, v, base, cfg, depth, k).node, k.end)
    case Recovered(next, _) => m == Unclosed && next == Next(v, open)
    case Rejected(next) => m == Nothing && next == Next(v, open)
  }

  lemma AnchorLowers(t: WordTable, v: Segment, base: nat, cfg: Config, depth: nat, k: MacroToken)
    requires MacroOk(v, k) && k.ShorthandAnchor?
    ensures var from, to := if k.caption.Some? then k.caption.value.start else k.targetEnd,
        if k.caption.Some? then k.caption.value.end else k.targetEnd;
      Node(LowerMacro(t, v, base, cfg, depth, k).node, k.end)
      == MacroOver(v, base, k.kind, InlineForm, k.open, k.targetStart, k.targetEnd, from, to, k.end)
  {
    hide Tiles, SafeStart, Spans, Valid, UnitOk, Boundary, MacroNode, MacroOver;
    var from, to := if k.caption.Some? then k.caption.value.start else k.targetEnd,
      if k.caption.Some? then k.caption.value.end else k.targetEnd;
    MacroNodeIs(v, base, k.kind, InlineForm, k.open, k.targetStart, k.targetEnd, from, to, k.end);
  }

  lemma AnchorGives(t: WordTable, v: Segment, base: nat, cfg: Config, depth: nat, open: nat, w: nat, kind: MacroKind)
    requires open < |v| && Boundary(v, open) && 2 <= w <= 3
    ensures var closers, openers := if w == 3 then "]]]" else "]]", if w == 3 then "[[[" else "[[";
      var r := RecognizeAnchor(v, open, w, kind);
      && (r.Some? <==> StartsWith(v, open, openers) && Find(v, open + w, closers).Some?)
      && (r.Some? ==> Gives(t, v, base, cfg, depth, open, r.value, AnchorMeant(v, base, open, w, kind, closers)))
  {
    hide Valid, NextUnit, Find, StartsWith, SafeStart, Boundary, UnitOk, LowerMacro, MacroOk, MacroOver;
    var r := RecognizeAnchor(v, open, w, kind);
    if r.Some? {
      AnchorLowers(t, v, base, cfg, depth, r.value.token);
    }
  }

  /** The label of a node is parsed from its text. */
  lemma LabelIs(t: WordTable, v: Segment, base: nat, cfg: Config, depth: nat, from: nat, to: nat)
    requires from <= to <= |v| && to - from < |v| && Boundary(v, from) && Boundary(v, to)
    ensures Nested(t, v, base, cfg, depth + 1, from, to).inlines == Label(t, v, base, cfg, depth, from, to)
  {
    hide Valid, Boundary, ParsedSegment, Tiles;
    SliceIsValid(v, from, to);
  }

  lemma LabelledIs(v: Segment, base: nat, link: bool, open: nat, s: nat, e: nat, from: nat, close: nat, end: nat,
      inner: Output)
    requires open < end <= |v| && open <= s <= e <= from <= close <= end
    requires Boundary(v, open) && Boundary(v, s) && Boundary(v, e) && Boundary(v, from) && Boundary(v, close)
      && Boundary(v, end)
    requires Tiles(inner.inlines, v[from..close], base + from, 0, close - from)
    ensures var range, content, caption := Between(base, open, end), Between(base, s, e),
      Some(Between(base, from, close));
      Labelled(v, base, link, open, s, e, from, close, end, inner).node
        == if link then Link(range, content, caption, inner.inlines)
          else Reference(range, content, caption, inner.inlines)
  {
    hide Valid, UnitOk, Boundary, Spans, Tiles;
  }

  lemma UnlabelledIs(v: Segment, base: nat, link: bool, open: nat, s: nat, e: nat, end: nat)
    requires open < end <= |v| && open <= s <= e <= end
    requires Boundary(v, open) && Boundary(v, s) && Boundary(v, e) && Boundary(v, end)
    ensures var range, content := Between(base, open, end), Between(base, s, e);
      Unlabelled(v, base, link, open, s, e, end).node
        == if link then Link(range, content, None, []) else Reference(range, content, None, [])
  {
    hide Valid, UnitOk, Boundary, Spans;
  }

  // A reference or link whose label is a segment is lowered to the labelled node.

  lemma BracketedLowers(t: WordTable, v: Segment, base: nat, cfg: Config, depth: nat, k: MacroToken)
    requires MacroOk(v, k) && (k.Xref? || k.ExplicitLink?)
    ensures LowerMacro(t, v, base, cfg, depth, k).node
      == var range, content := Between(base, k.open, k.end), Between(base, k.targetStart, k.bracket);
         var caption, text := Some(Between(base, k.bracket + 1, k.close)),
           Label(t, v, base, cfg, depth, k.bracket + 1, k.close);
         if k.ExplicitLink? then Link(range, content, caption, text) else Reference(range, content, caption, text)
  {
    hide Tiles, SafeStart, Labelled, Unlabelled, Spans, Valid, UnitOk, NextUnit, Boundary, Label, Nested;
    LabelIs(t, v, base, cfg, depth, k.bracket + 1, k.close);
    LabelledIs(v, base, k.ExplicitLink?, k.open, k.targetStart, k.bracket, k.bracket + 1, k.close, k.end,
      Nested(t, v, base, cfg, depth + 1, k.bracket + 1, k.close));
  }

  lemma ShortLowers(t: WordTable, v: Segment, base: nat, cfg: Config, depth: nat, k: MacroToken)
    requires MacroOk(v, k) && k.ShortReference?
    ensures var comma := NextUnit(v, k.targetStart, ',');
      LowerMacro(t, v, base, cfg, depth, k).node
      == if comma.Some? && comma.value < k.close then
           Reference(Between(base, k.open, k.end), Between(base, k.targetStart, comma.value),
                     Some(Between(base, comma.value + 1, k.close)),
                       Label(t, v, base, cfg, depth, comma.value + 1, k.close))
         else Reference(Between(base, k.open, k.end), Between(base, k.targetStart, k.close), None, [])
  {
    hide Tiles, SafeStart, Labelled, Unlabelled, Spans, Valid, UnitOk, NextUnit, Boundary, Label, Nested;
    var comma := NextUnit(v, k.targetStart, ',');
    if comma.Some? && comma.value < k.close {
      AsciiIsWhole(v, comma.value);
      LabelIs(t, v, base, cfg, depth, comma.value + 1, k.close);
      LabelledIs(v, base, false, k.open, k.targetStart, comma.value, comma.value + 1, k.close, k.end,
        Nested(t, v, base, cfg, depth + 1, comma.value + 1, k.close));
    } else {
      UnlabelledIs(v, base, false, k.open, k.targetStart, k.close, k.end);
    }
  }

  lemma UrlLowers(t: WordTable, v: Segment, base: nat, cfg: Config, depth: nat, k: MacroToken)
    requires MacroOk(v, k) && k.Url?
    ensures LowerMacro(t, v, base, cfg, depth, k).node
      == match k.caption
         case Some(r) =>
           Link(Between(base, k.open, k.end), Between(base, k.open, k.targetEnd), Some(Between(base, r.start, r.end)),
                Label(t, v, base, cfg, depth, r.start, r.end))
         case None => Link(Between(base, k.open, k.end), Between(base, k.open, k.targetEnd), None, [])
  {
    hide Tiles, SafeStart, Labelled, Unlabelled, Spans, Valid, UnitOk, NextUnit, Boundary, Label, Nested;
    if k.caption.Some? {
      var r := k.caption.value;
      LabelIs(t, v, base, cfg, depth, r.start, r.end);
      LabelledIs(v, base, true, k.open, k.open, k.targetEnd, r.start, r.end, k.end,
        Nested(t, v, base, cfg, depth + 1, r.start, r.end));
    } else {
      UnlabelledIs(v, base, true, k.open, k.open, k.targetEnd, k.end);
    }
  }

  lemma StandardLowers(t: WordTable, v: Segment, base: nat, cfg: Config, depth: nat, k: MacroToken)
    requires MacroOk(v, k) && k.Standard?
    ensures Node(LowerMacro(t, v, base, cfg, depth, k).node, k.end)
      == MacroOver(v, base, k.kind, k.form, k.open, k.targetStart, k.bracket, k.bracket + 1, k.close, k.end)
  {
    hide Tiles, SafeStart, Spans, Valid, UnitOk, Boundary, MacroNode, MacroOver;
    MacroNodeIs(v, base, k.kind, k.form, k.open, k.targetStart, k.bracket, k.bracket + 1, k.close, k.end);
  }

  lemma ShortGives(t: WordTable, v: Segment, base: nat, cfg: Config, depth: nat, open: nat, d: Delimiters)
    requires open < |v| && Boundary(v, open) && Indexes(d, v) && StartsWith(v, open, "<<")
    ensures Gives(t, v, base, cfg, depth, open, RecognizeShort(v, open, d), ShortMeant(t, v, base, cfg, depth, open))
  {
    hide Valid, NextUnit, Find, SafeStart, UnitOk, Tiles, Label, LowerMacro, StartsWith;
    var r := RecognizeShort(v, open, d);
    StartsAscii(v, open, "<<");
    if r.Matched? {
      ShortLowers(t, v, base, cfg, depth, r.token);
    }
  }

  lemma VerbatimGives(t: WordTable, v: Segment, base: nat, cfg: Config, depth: nat, open: nat, n: Named, d: Delimiters)
    requires open < |v| && Boundary(v, open) && Indexes(d, v)
    requires NamedAt(v, open, n) && (n.FormulaName? || n.PassName?)
    ensures Gives(t, v, base, cfg, depth, open, RecognizeVerbatim(v, open, n, d), VerbatimMeant(v, base, open, n))
  {
    hide Valid, NextUnit, SafeStart, UnitOk, Boundary, Spans, AsciiAlphabetic;
  }

  /** Where the bracket behind a target closes. */
  function ClosesAt(v: Segment, n: Named, b: nat): Option<nat>
    requires b < |v|
  {
    if n.StandardName? && n.kind.Footnote? then FootnoteScan(v, b + 1, 0, None) else NextUnit(v, b + 1, ']')
  }

  lemma NamedRecognized(v: Segment, open: nat, n: Named, d: Delimiters)
    requires open < |v| && Boundary(v, open) && Indexes(d, v)
    requires NamedAt(v, open, n) && (n.XrefName? || n.LinkName? || n.StandardName?)
    ensures var r, s := RecognizeBracketed(v, open, n, d), open + n.width; var bracket := NextUnit(v, s, '[');
      if bracket.None? then r.Recovered? && r.next == Next(v, open)
      else if AnySpace(v, s, bracket.value) then r == Rejected(Next(v, open))
      else
        var b, close := bracket.value, ClosesAt(v, n, bracket.value);
        if close.None? then r.Recovered? && r.next == Next(v, open)
        else
          r == Matched(
            if n.XrefName? then Xref(open, s, b, close.value, close.value + 1)
            else if n.LinkName? then ExplicitLink(open, s, b, close.value, close.value + 1)
            else Standard(n.kind, n.form, open, s, b, close.value, close.value + 1))
  {
    hide Valid, NextUnit, SafeStart, UnitOk, AsciiAlphabetic, SpaceAt, FootnoteScan, MacroOk, AnySpace, Boundary;
  }

  lemma NamedGives(t: WordTable, v: Segment, base: nat, cfg: Config, depth: nat, open: nat, n: Named, d: Delimiters)
    requires open < |v| && Boundary(v, open) && Indexes(d, v)
    requires NamedAt(v, open, n) && (n.XrefName? || n.LinkName? || n.StandardName?)
    ensures Gives(t, v, base, cfg, depth, open, RecognizeBracketed(v, open, n, d),
      NamedMeant(t, v, base, cfg, depth, open, n))
  {
    hide Valid, NextUnit, NamedAt, Indexes, AnySpace, ClosesAt, Label, LowerMacro, MacroOver, Boundary,
      RecognizeBracketed,
      MacroOk;
    NamedRecognized(v, open, n, d);
    var r := RecognizeBracketed(v, open, n, d);
    if r.Matched? {
      if n.StandardName? {
        StandardLowers(t, v, base, cfg, depth, r.token);
      } else {
        BracketedLowers(t, v, base, cfg, depth, r.token);
      }
    }
  }

  lemma MacroNodeIs(v: Segment, base: nat, kind: MacroKind, form: MacroForm, open: nat, s: nat, e: nat, from: nat,
      close: nat, end: nat)
    requires open <= s <= e <= end <= |v| && open < end && s <= from <= close <= end
    requires Boundary(v, open) && Boundary(v, s) && Boundary(v, e) && Boundary(v, end)
    ensures Node(MacroNode(v, base, kind, form, open, s, e, from, close, end).node, end)
      == MacroOver(v, base, kind, form, open, s, e, from, close, end)
  {
    hide Valid, UnitOk, Boundary, Spans;
  }

  lemma EmailGives(t: WordTable, v: Segment, base: nat, cfg: Config, depth: nat, open: nat)
    requires open < |v| && Boundary(v, open) && EmailEnd(v, open).Some?
    ensures var end := EmailEnd(v, open).value;
      Gives(t, v, base, cfg, depth, open, RecognizeEmail(v, open),
        MacroOver(v, base, Email, InlineForm, open, open, end, end, end, end))
  {
    hide Valid, SafeStart, UnitOk, Spans, EmailEnd, MacroNode, Boundary;
    var end := EmailEnd(v, open).value;
    AsciiEnd(v, end - 1);
    MacroNodeIs(v, base, Email, InlineForm, open, open, end, end, end, end);
  }

  lemma UrlLabelled(v: Segment, open: nat, e: nat, d: Delimiters)
    requires open < e <= |v| && Boundary(v, open) && Boundary(v, e) && Indexes(d, v)
    requires e == |v| || v[e] != '[' ==> SafeStart(v, e)
    ensures var r := UrlWithLabel(v, open, e, d);
      if e < |v| && v[e] == '[' then
        var close := NextUnit(v, e + 1, ']');
        if close.None? then r.Recovered? && r.next == Next(v, open)
        else r == Matched(Url(open, e, Some(Range(e + 1, close.value)), close.value + 1))
      else r == Matched(Url(open, e, None, e))
  {
    hide Valid, NextUnit, SafeStart, UnitOk, MacroOk, Boundary;
  }

  lemma LabelAt(u: seq<nat>, v: Segment, i: nat)
    requires IndexesLabels(u, v) && i <= |v| && Boundary(v, i)
    ensures i < |u| && u[i] == LabelOrSpace(v, i)
  {
    hide LabelOrSpace, Valid;
  }

  /** The target of the URL whose scheme ends at `scheme`. */
  lemma UrlRecognized(v: Segment, open: nat, scheme: nat, d: Delimiters, u: seq<nat>)
    requires open < |v| && Boundary(v, open) && Indexes(d, v) && IndexesLabels(u, v)
      && SchemeEnd(v, open) == Some(scheme)
    ensures var e := UrlTargetEnd(v, open, scheme);
      if e <= scheme then RecognizeUrl(v, open, d, u) == Rejected(Next(v, open))
      else RecognizeUrl(v, open, d, u) == UrlWithLabel(v, open, e, d)
  {
    hide Valid, SafeStart, UnitOk, SchemeEnd, LabelOrSpace, TrimBack, MacroOk, TrailingPunctuation, UrlWithLabel,
      Indexes, IndexesLabels, Boundary;
    LabelAt(u, v, scheme);
  }

  lemma UrlGives(t: WordTable, v: Segment, base: nat, cfg: Config, depth: nat, open: nat, d: Delimiters, u: seq<nat>)
    requires open < |v| && Boundary(v, open) && Indexes(d, v) && IndexesLabels(u, v)
    ensures Gives(t, v, base, cfg, depth, open, RecognizeUrl(v, open, d, u), UrlMeant(t, v, base, cfg, depth, open))
  {
    hide Valid, NextUnit, Boundary, SchemeEnd, LabelOrSpace, TrimBack, Label, LowerMacro, TrailingPunctuation,
      MacroOk, Indexes, IndexesLabels, UrlWithLabel, SafeStart, RecognizeUrl;
    if SchemeEnd(v, open).None? {
      NoUrl(v, open, d, u);
    } else {
      var scheme := SchemeEnd(v, open).value;
      var e := UrlTargetEnd(v, open, scheme);
      UrlRecognized(v, open, scheme, d, u);
      if scheme < e {
        UrlLabelled(v, open, e, d);
      }
    }
    if RecognizeUrl(v, open, d, u).Matched? {
      UrlLowers(t, v, base, cfg, depth, RecognizeUrl(v, open, d, u).token);
    }
  }

  lemma NoUrl(v: Segment, open: nat, d: Delimiters, u: seq<nat>)
    requires open < |v| && Boundary(v, open) && Indexes(d, v) && IndexesLabels(u, v) && SchemeEnd(v, open).None?
    ensures RecognizeUrl(v, open, d, u) == Rejected(Next(v, open))
  {
    hide Valid, Indexes, IndexesLabels, SchemeEnd, Boundary;
  }

  /** Recognition over the indexes and lowering give what the macro means. */
  lemma MacroGives(t: WordTable, v: Segment, base: nat, cfg: Config, depth: nat, open: nat, d: Delimiters, u: seq<nat>)
    requires open < |v| && Boundary(v, open) && Indexes(d, v) && IndexesLabels(u, v)
    ensures Gives(t, v, base, cfg, depth, open, RecognizeMacro(v, open, d, u), MeantAt(t, v, base, cfg, depth, open))
  {
    hide Valid, Find, StartsWith, Gives, RecognizeAnchor, AnchorMeant, RecognizeVerbatim, VerbatimMeant,
      RecognizeShort, ShortMeant,
      RecognizeBracketed, NamedMeant, RecognizeEmail, RecognizeUrl, UrlMeant, NamedPrefix, EmailEnd, Indexes,
        IndexesLabels,
      NamedAt, MacroOver;
    AnchorGives(t, v, base, cfg, depth, open, 3, BibliographyAnchor);
    AnchorGives(t, v, base, cfg, depth, open, 2, Anchor);
    var named := NamedPrefix(v, open);
    if RecognizeAnchor(v, open, 3, BibliographyAnchor).Some? || RecognizeAnchor(v, open, 2, Anchor).Some? {
    } else if named.Some? && (named.value.FormulaName? || named.value.PassName?) {
      VerbatimGives(t, v, base, cfg, depth, open, named.value, d);
    } else if StartsWith(v, open, "<<") {
      ShortGives(t, v, base, cfg, depth, open, d);
    } else if named.Some? {
      NamedGives(t, v, base, cfg, depth, open, named.value, d);
    } else if EmailEnd(v, open).Some? {
      EmailGives(t, v, base, cfg, depth, open);
    } else {
      UrlGives(t, v, base, cfg, depth, open, d, u);
    }
  }

  // ---------------------------------------------------------------- the theorem

  /** A macro candidate that the scanner reaches and that no backslash escapes. */
  predicate OpenAt(t: WordTable, v: Segment, base: nat, cfg: Config, depth: nat, j: nat) {
    && j < |Candidates(t, v)| && Reached(t, v, base, cfg, depth, j)
    && Candidates(t, v)[j].MacroAt? && Candidates(t, v)[j].open < |v|
    && !IsEscaped(v, Candidates(t, v)[j].open)
  }

  lemma StepOfMacro(t: WordTable, v: Segment, base: nat, cfg: Config, depth: nat, d: Delimiters, u: seq<nat>, st: Scan,
      c: Candidate)
    requires Indexes(d, v) && IndexesLabels(u, v) && c.MacroAt?
    requires Ready(v, base, st) && st.cursor <= c.open && CandidateOk(t, v, c)
    ensures c.open < |v| && Boundary(v, c.open) && MacroOpens(v, c.open)
    ensures Step(t, v, base, cfg, depth, d, u, st, c) == StepMacro(t, v, base, cfg, depth, d, u, st, c.open)
  {
    hide Indexes, IndexesLabels, Ready, StepMacro, MacroOpens, Boundary;
  }

  /** What an unescaped macro does to the scanner. */
  lemma MacroMakes(t: WordTable, v: Segment, base: nat, cfg: Config, depth: nat, d: Delimiters, u: seq<nat>,
      st: Scan, open: nat)
    requires Indexes(d, v) && IndexesLabels(u, v) && Ready(v, base, st) && st.cursor <= open < |v|
    requires Boundary(v, open) && MacroOpens(v, open) && !IsEscaped(v, open)
    ensures st.plainStart <= open
    ensures var after, m := StepMacro(t, v, base, cfg, depth, d, u, st, open), MeantAt(t, v, base, cfg, depth, open);
      && after.suppressed == st.suppressed
      && if m.Node? then after.inlines == WithText(v, base, st, open) + [m.node]
         && after.cursor == after.plainStart == m.end
         else after.inlines == st.inlines && after.plainStart == st.plainStart && after.cursor == Next(v, open)
  {
    hide Indexes, IndexesLabels, MacroOpens, RecognizeMacro, MacroOk, Tiles, SafeStart, Emit, LowerMacro, Ready,
      Valid, IsEscaped,
      StepEscaped, Spans, WithText, Boundary, MeantAt;
    ReadyBounds(v, base, st);
    MacroGives(t, v, base, cfg, depth, open, d, u);
    var r := RecognizeMacro(v, open, d, u);
    if r.Matched? {
      MacroEnds(v, r.token);
      EmitIs(v, base, st, open, r.token.end, LowerMacro(t, v, base, cfg, depth, r.token));
    }
  }

  /** A macro that the scanner reaches, and that is not escaped, becomes the node it means, and the scanner
      goes on behind it; when it means none, no node but plain text starts there, and the scanner goes on
      with the next character. */
  lemma MacroBecomesNode(t: WordTable, v: Segment, base: nat, cfg: Config, depth: nat, j: nat)
    requires OpenAt(t, v, base, cfg, depth, j)
    ensures var open, s := Candidates(t, v)[j].open, ParsedSegment(t, v, base, cfg, depth).inlines;
      var m, after := MeantAt(t, v, base, cfg, depth, open), StateAt(t, v, base, cfg, depth, j + 1);
      && Boundary(v, open)
      && (if m.Node? then m.node in s else forall i :: 0 <= i < |s| ==>
         s[i].PlainText? || s[i].range.start != base + open)
      && after.cursor == if m.Node? then m.end else Next(v, open)
  {
    hide Candidates, StateAt, Ready, WithText, ParsedSegment, MeantAt, StepMacro, Indexes, IndexesLabels,
      DelimitersOf, LabelsOf,
      MacroOpens, IsEscaped, Boundary;
    var open, s := Candidates(t, v)[j].open, ParsedSegment(t, v, base, cfg, depth).inlines;
    var st, after := StateAt(t, v, base, cfg, depth, j), StateAt(t, v, base, cfg, depth, j + 1);
    StateStep(t, v, base, cfg, depth, j);
    StepOfMacro(t, v, base, cfg, depth, DelimitersOf(v), LabelsOf(v), st, Candidates(t, v)[j]);
    MacroMakes(t, v, base, cfg, depth, DelimitersOf(v), LabelsOf(v), st, open);
    OutputGrows(t, v, base, cfg, depth, j + 1);
    var m := MeantAt(t, v, base, cfg, depth, open);
    if m.Node? {
      R.LastOne(WithText(v, base, st, open), m.node);
      R.PrefixHas(after.inlines, s);
    } else {
      forall i | 0 <= i < |s| && !s[i].PlainText? ensures s[i].range.start != base + open {
        if i < |st.inlines| {
          R.ReadyTiles(v, base, st);
          R.TilesBefore(st.inlines, v, base, 0, st.plainStart, i);
          ReadyBounds(v, base, st);
        }
      }
    }
  }
}
