/** What the two phases of the footnote catalog gather, stated without tables and phases. */
module CatalogGroups {
  import opened Text
  import opened Sorting
  import opened Catalog

  // ---------------------------------------------------------------- the groups

  predicate Defined(macros: seq<Macro>, name: Text, k: nat)
    requires k <= |macros|
  {
    exists j :: 0 <= j < k && macros[j].target == name && HasText(macros[j])
  }

  /** Macros that make a footnote: anonymous ones with text, and the first with text of a name. */
  predicate Defines(macros: seq<Macro>, i: nat)
    requires i < |macros|
  {
    HasText(macros[i]) && (macros[i].target == "" || !Defined(macros, macros[i].target, i))
  }

  function Definitions(macros: seq<Macro>, k: nat): (r: seq<nat>)
    requires k <= |macros|
    ensures forall o :: 0 <= o < |r| ==> r[o] < k
  {
    if k == 0 then [] else Definitions(macros, k - 1) + if Defines(macros, k - 1) then [k - 1] else []
  }

  /** The ranges of the macros of a name, in order. */
  function Uses(macros: seq<Macro>, name: Text, a: nat, b: nat): seq<TextRange>
    requires b <= |macros|
  {
    if b <= a then [] else Uses(macros, name, a, b - 1) + if macros[b - 1].target == name then
      [macros[b - 1].range] else []
  }

  lemma {:induction false} DefinitionsAre(macros: seq<Macro>, k: nat)
    requires k <= |macros|
    ensures var d := Definitions(macros, k);
      && (forall o :: 0 <= o < |d| ==> Defines(macros, d[o]))
      && (forall i :: 0 <= i < k && Defines(macros, i) ==> i in d)
      && (forall o, p :: 0 <= o < p < |d| ==> d[o] < d[p])
  {
    hide Defines, Definitions;
    DefinitionsUnfold(macros, k);
    if k > 0 {
      DefinitionsAre(macros, k - 1);
      if Defines(macros, k - 1) {
        LastIn(Definitions(macros, k - 1), k - 1);
      }
    }
  }

  lemma DefinitionsUnfold(macros: seq<Macro>, k: nat)
    requires k <= |macros|
    ensures Definitions(macros, k) ==
      if k == 0 then []
      else if Defines(macros, k - 1) then Definitions(macros, k - 1) + [k - 1]
      else Definitions(macros, k - 1)
  {
    hide Defines;
  }

  lemma LastIn(s: seq<nat>, x: nat)
    ensures var d := s + [x];
      && (forall o :: 0 <= o < |d| ==> d[o] == if o < |s| then s[o] else x)
      && (forall i :: i in d <==> i in s || i == x)
  {
  }

  /** A name is defined once. */
  lemma DefinedOnce(macros: seq<Macro>, i: nat, j: nat)
    requires i < |macros| && j < |macros| && Defines(macros, i) && Defines(macros, j)
    requires macros[i].target == macros[j].target != ""
    ensures i == j
  {
  }

  /** The occurrences of the footnote made at `i` when `k` macros are visited. */
  function OccurrencesAt(macros: seq<Macro>, i: nat, k: nat): seq<TextRange>
    requires i < |macros| && k <= |macros|
  {
    if macros[i].target == "" then [macros[i].range] else Uses(macros, macros[i].target, i, k)
  }

  /** A footnote made at `i`, as the `o`-th. */
  function Note(macros: seq<Macro>, i: nat, o: nat, occurrences: seq<TextRange>): Footnote
    requires i < |macros| && HasText(macros[i])
  {
    var m := macros[i];
    Footnote(o + 1, if m.target == "" then None else Some(m.target), m.range, Unescaped(m.text.value), occurrences)
  }

  function Waiting(macros: seq<Macro>, k: nat): seq<Reference>
    requires k <= |macros|
  {
    if k == 0 then []
    else
      var m := macros[k - 1];
      Waiting(macros, k - 1) + if m.target != "" && !Defined(macros, m.target, k) then
        [Reference(m.target, m.range)] else []
  }

  /** The table after `k` macros: a footnote for each definition so far, which holds the
      definition and the later uses of its name; the earlier uses wait. */
  ghost predicate Grouped(macros: seq<Macro>, k: nat, s: State)
    requires k <= |macros|
  {
    var d := Definitions(macros, k);
    && |s.footnotes| == |d|
    && (forall o :: 0 <= o < |d| ==>
       Defines(macros, d[o]) && s.footnotes[o] == Note(macros, d[o], o, OccurrencesAt(macros, d[o], k)))
    && (forall n :: n in s.named <==> n != "" && Defined(macros, n, k))
    && (forall n :: n in s.named ==> s.named[n] < |d| && macros[d[s.named[n]]].target == n)
    && s.pending == Waiting(macros, k)
  }

  lemma {:induction false} VisitedIsGrouped(macros: seq<Macro>, k: nat)
    requires k <= |macros|
    ensures Grouped(macros, k, Visited(macros, k))
  {
    hide Step, Grouped;
    if k == 0 {
      EmptyIsGrouped(macros);
    } else {
      VisitedIsGrouped(macros, k - 1);
      StepIsGrouped(macros, k - 1, Visited(macros, k - 1));
    }
  }

  lemma EmptyIsGrouped(macros: seq<Macro>)
    ensures Grouped(macros, 0, State([], map[], [], []))
  {
  }

  lemma StepIsGrouped(macros: seq<Macro>, k: nat, s: State)
    requires k < |macros| && InBounds(s) && Grouped(macros, k, s)
    ensures Grouped(macros, k + 1, Step(s, macros[k]))
  {
    hide Uses, Defined, Waiting, Definitions, HasText, Defines, OccurrencesAt, Note, Add;
    var m := macros[k];
    DefinedNext(macros, k);
    NamedWhenDefined(macros, k, s, m.target);
    DefinitionsNext(macros, k);
    if Defines(macros, k) {
      PushIsGrouped(macros, k, s);
    } else if m.target in s.named {
      AddIsGrouped(macros, k, s);
    } else {
      OthersStay(macros, k, s);
    }
    WaitingNext(macros, k);
  }

  lemma DefinitionsNext(macros: seq<Macro>, k: nat)
    requires k < |macros|
    ensures Definitions(macros, k + 1) == Definitions(macros, k) + if Defines(macros, k) then [k] else []
    ensures Defines(macros, k) <==>
      HasText(macros[k]) && (macros[k].target == "" || !Defined(macros, macros[k].target, k))
  {
  }

  lemma WaitingNext(macros: seq<Macro>, k: nat)
    requires k < |macros|
    ensures var m := macros[k];
      Waiting(macros, k + 1) == Waiting(macros, k) + if m.target != "" && !Defined(macros, m.target, k + 1) then
        [Reference(m.target, m.range)] else []
  {
  }

  lemma NamedWhenDefined(macros: seq<Macro>, k: nat, s: State, n: Text)
    requires k <= |macros| && Grouped(macros, k, s)
    ensures n in s.named <==> n != "" && Defined(macros, n, k)
  {
  }

  /** Whether the footnotes are those of the first `k` macros, up to the `done`-th definition. */
  ghost predicate Footnotes(macros: seq<Macro>, k: nat, fs: seq<Footnote>) {
    k <= |macros| &&
    var d := Definitions(macros, k);
    && |fs| == |d|
    && forall o :: 0 <= o < |d| ==>
       Defines(macros, d[o]) && fs[o] == Note(macros, d[o], o, OccurrencesAt(macros, d[o], k))
  }

  lemma PushIsGrouped(macros: seq<Macro>, k: nat, s: State)
    requires k < |macros| && InBounds(s) && Grouped(macros, k, s) && Defines(macros, k)
    ensures Footnotes(macros, k + 1, Pushed(s.footnotes, macros[k]))
  {
    hide Uses, Definitions, Waiting;
    var d, m := Definitions(macros, k), macros[k];
    DefinitionsNext(macros, k);
    DefinitionsAre(macros, k);
    UsesNext(macros, k);
    Ungrouped(macros, k, m.target);
    OwnUse(macros, k);
  }

  lemma Ungrouped(macros: seq<Macro>, k: nat, n: Text)
    requires k <= |macros| && (n == "" || !Defined(macros, n, k))
    ensures var d := Definitions(macros, k); forall o :: 0 <= o < |d| ==> n == "" || macros[d[o]].target != n
  {
    hide Definitions;
    DefinitionsAre(macros, k);
  }

  lemma AddIsGrouped(macros: seq<Macro>, k: nat, s: State)
    requires k < |macros| && InBounds(s) && Grouped(macros, k, s) && !Defines(macros, k) && macros[k].target in s.named
    ensures Footnotes(macros, k + 1, Add(s.footnotes, s.named[macros[k].target], macros[k].range))
  {
    hide Uses, Definitions, Waiting, Defines, Defined;
    DefinitionsNext(macros, k);
    UsesNext(macros, k);
    OnlyOneGroup(macros, k, s, macros[k].target);
  }

  lemma OthersStay(macros: seq<Macro>, k: nat, s: State)
    requires k < |macros| && InBounds(s) && Grouped(macros, k, s) && !Defines(macros, k) && macros[k].target !in s.named
    ensures Footnotes(macros, k + 1, s.footnotes)
  {
    hide Uses, Definitions, Waiting;
    var d, m := Definitions(macros, k), macros[k];
    DefinitionsNext(macros, k);
    DefinitionsAre(macros, k);
    UsesNext(macros, k);
    Ungrouped(macros, k, m.target);
  }

  lemma DefinedNext(macros: seq<Macro>, k: nat)
    requires k < |macros|
    ensures forall n :: Defined(macros, n, k + 1) <==>
      Defined(macros, n, k) || (macros[k].target == n && HasText(macros[k]))
  {
    forall n ensures Defined(macros, n, k + 1) <==>
      Defined(macros, n, k) || (macros[k].target == n && HasText(macros[k])) {
      if Defined(macros, n, k) {
        var j :| 0 <= j < k && macros[j].target == n && HasText(macros[j]);
        assert 0 <= j < k + 1;
      }
    }
  }

  lemma OwnUse(macros: seq<Macro>, k: nat)
    requires k < |macros|
    ensures Uses(macros, macros[k].target, k, k + 1) == [macros[k].range]
  {
    assert Uses(macros, macros[k].target, k, k) == [];
  }

  lemma UsesNext(macros: seq<Macro>, k: nat)
    requires k < |macros|
    ensures forall n, a: nat :: a <= k ==>
      Uses(macros, n, a, k + 1) == Uses(macros, n, a, k) + if macros[k].target == n then [macros[k].range] else []
    ensures forall n :: Uses(macros, n, k, k) == []
  {
  }

  lemma OnlyOneGroup(macros: seq<Macro>, k: nat, s: State, n: Text)
    requires k <= |macros| && Grouped(macros, k, s) && n in s.named
    ensures forall o :: 0 <= o < |s.footnotes| && macros[Definitions(macros, k)[o]].target == n ==> o == s.named[n]
  {
    var d := Definitions(macros, k);
    DefinitionsAre(macros, k);
    forall o | 0 <= o < |d| && macros[d[o]].target == n ensures o == s.named[n] {
      DefinedOnce(macros, d[o], d[s.named[n]]);
    }
  }

  // ---------------------------------------------------------------- forward references join their group

  /** The first `j` references, as far as they have the name. */
  function Late(p: seq<Reference>, name: Text, j: nat): seq<TextRange>
    requires j <= |p|
  {
    if j == 0 then [] else Late(p, name, j - 1) + if p[j - 1].name == name then [p[j - 1].range] else []
  }

  lemma {:induction false} LatePrefix(p: seq<Reference>, q: seq<Reference>, name: Text, j: nat)
    requires j <= |p|
    ensures Late(p + q, name, j) == Late(p, name, j)
  {
    if j > 0 {
      LatePrefix(p, q, name, j - 1);
    }
  }

  /** What waits for a name are its uses before its definition. */
  lemma {:induction false} WaitingFor(macros: seq<Macro>, k: nat, i: nat)
    requires k <= |macros| && i < |macros| && Defines(macros, i) && macros[i].target != ""
    ensures Late(Waiting(macros, k), macros[i].target, |Waiting(macros, k)|)
      == Uses(macros, macros[i].target, 0, Min(i, k))
    decreases k
  {
    hide Late, Uses, Defined, Defines;
    var n := macros[i].target;
    if k == 0 {
      NoUses(macros, n);
    } else {
      WaitingFor(macros, k - 1, i);
      UsesNext(macros, k - 1);
      DefinedFrom(macros, n, i, k);
      var before, m := Waiting(macros, k - 1), macros[k - 1];
      LateAppend(before, Reference(m.target, m.range), n);
      WaitingNext(macros, k - 1);
      assert before + [] == before;
    }
  }

  lemma NoUses(macros: seq<Macro>, n: Text)
    ensures Uses(macros, n, 0, 0) == [] && Late([], n, 0) == []
  {
  }

  lemma LateAppend(p: seq<Reference>, r: Reference, n: Text)
    ensures Late(p + [r], n, |p| + 1) == Late(p, n, |p|) + if r.name == n then [r.range] else []
  {
    LatePrefix(p, [r], n, |p|);
  }

  lemma DefinedFrom(macros: seq<Macro>, n: Text, i: nat, k: nat)
    requires i < |macros| && k <= |macros| && Defines(macros, i) && macros[i].target == n != ""
    ensures Defined(macros, n, k) <==> i < k
  {
  }

  /** The footnotes when the first `j` references have joined. */
  ghost predicate Joined(macros: seq<Macro>, p: seq<Reference>, fs: seq<Footnote>, j: nat) {
    j <= |p| &&
    var d := Definitions(macros, |macros|);
    && |fs| == |d|
    && forall o :: 0 <= o < |d| ==>
       Defines(macros, d[o]) && fs[o] == Note(macros, d[o], o, JoinedAt(macros, p, d[o], j))
  }

  function JoinedAt(macros: seq<Macro>, p: seq<Reference>, i: nat, j: nat): seq<TextRange>
    requires i < |macros| && j <= |p|
  {
    OccurrencesAt(macros, i, |macros|) + if macros[i].target == "" then [] else Late(p, macros[i].target, j)
  }

  lemma {:induction false} SettledIsJoined(macros: seq<Macro>, s: State, j: nat)
    requires InBounds(s) && Grouped(macros, |macros|, s) && j <= |s.pending|
    ensures Joined(macros, s.pending, Settled(s, j).footnotes, j)
    decreases j
  {
    hide Definitions, Joined, Grouped, Settle, Late, Uses;
    if j > 0 {
      SettledIsJoined(macros, s, j - 1);
      SettleIsJoined(macros, s, Settled(s, j - 1), j);
    } else {
      NoneJoined(macros, s);
    }
  }

  lemma NoneJoined(macros: seq<Macro>, s: State)
    requires Grouped(macros, |macros|, s)
    ensures Joined(macros, s.pending, s.footnotes, 0)
  {
    hide Definitions, OccurrencesAt, Defines, Waiting;
    var d := Definitions(macros, |macros|);
    forall o | 0 <= o < |d| ensures JoinedAt(macros, s.pending, d[o], 0) == OccurrencesAt(macros, d[o], |macros|) {
      assert OccurrencesAt(macros, d[o], |macros|) + [] == OccurrencesAt(macros, d[o], |macros|);
    }
  }

  lemma SettleIsJoined(macros: seq<Macro>, s: State, t: State, j: nat)
    requires InBounds(s) && Grouped(macros, |macros|, s) && 0 < j <= |s.pending|
    requires InBounds(t) && t.named == s.named && Joined(macros, s.pending, t.footnotes, j - 1)
    ensures Joined(macros, s.pending, Settle(t, s.pending[j - 1]).footnotes, j)
  {
    hide Definitions, OccurrencesAt, Defines, Waiting, Grouped, Late, Uses, Defined, JoinedAt;
    var d, r := Definitions(macros, |macros|), s.pending[j - 1];
    forall o | 0 <= o < |d| ensures
      JoinedAt(macros, s.pending, d[o], j)
        == JoinedAt(macros, s.pending, d[o], j - 1)
           + (if r.name in s.named && o == s.named[r.name] then [r.range] else [])
    {
      JoinedStep(macros, s, j, o);
    }
  }

  lemma JoinedStep(macros: seq<Macro>, s: State, j: nat, o: nat)
    requires Grouped(macros, |macros|, s) && 0 < j <= |s.pending| && o < |Definitions(macros, |macros|)|
    ensures var i, r := Definitions(macros, |macros|)[o], s.pending[j - 1];
      JoinedAt(macros, s.pending, i, j)
        == JoinedAt(macros, s.pending, i, j - 1) + (if r.name in s.named && o == s.named[r.name] then [r.range] else [])
  {
    hide Definitions, OccurrencesAt, Defines, Waiting, Grouped, Late, Uses, Defined;
    LateStep(s.pending, j);
    GroupOf(macros, s, j - 1, o);
    var before := JoinedAt(macros, s.pending, Definitions(macros, |macros|)[o], j - 1);
    assert before + [] == before;
  }

  /** The footnote that a waiting reference joins is the only one of its name. */
  lemma GroupOf(macros: seq<Macro>, s: State, j: nat, o: nat)
    requires Grouped(macros, |macros|, s) && j < |s.pending| && o < |Definitions(macros, |macros|)|
    ensures s.pending[j].name != ""
    ensures var i, n := Definitions(macros, |macros|)[o], s.pending[j].name;
      macros[i].target == n <==> n in s.named && o == s.named[n]
  {
    hide Definitions, OccurrencesAt, Note, Waiting, Uses, Defined;
    var n := s.pending[j].name;
    WaitingHasName(macros, |macros|, j);
    if n in s.named {
      OnlyOneGroup(macros, |macros|, s, n);
    } else {
      Ungrouped(macros, |macros|, n);
    }
  }

  lemma LateStep(p: seq<Reference>, j: nat)
    requires 0 < j <= |p|
    ensures forall n :: Late(p, n, j) == Late(p, n, j - 1) + if p[j - 1].name == n then [p[j - 1].range] else []
  {
  }

  lemma {:induction false} WaitingHasName(macros: seq<Macro>, k: nat, j: nat)
    requires k <= |macros| && j < |Waiting(macros, k)|
    ensures Waiting(macros, k)[j].name != ""
    decreases k
  {
    if j < |Waiting(macros, k - 1)| {
      WaitingHasName(macros, k - 1, j);
    }
  }

  /** All uses of the name defined at `i`; an anonymous footnote has one. */
  function Group(macros: seq<Macro>, i: nat): seq<TextRange>
    requires i < |macros|
  {
    if macros[i].target == "" then [macros[i].range] else Uses(macros, macros[i].target, 0, |macros|)
  }

  lemma {:induction false} UsesSplit(macros: seq<Macro>, n: Text, a: nat, b: nat, c: nat)
    requires a <= b <= c <= |macros|
    ensures Uses(macros, n, a, c) == Uses(macros, n, a, b) + Uses(macros, n, b, c)
    decreases c
  {
    if b < c {
      UsesSplit(macros, n, a, b, c - 1);
    }
  }

  /** Before sorting, the `o`-th footnote is that of the `o`-th definition, with its whole group. */
  lemma GatheredIs(macros: seq<Macro>, o: nat)
    ensures |Gathered(macros).footnotes| == |Definitions(macros, |macros|)|
    ensures o < |Gathered(macros).footnotes| ==>
      var i := Definitions(macros, |macros|)[o]; var f := Gathered(macros).footnotes[o];
      && Defines(macros, i) && f == Note(macros, i, o, f.occurrences)
         && multiset(f.occurrences) == multiset(Group(macros, i))
  {
    hide Definitions, Defines, Uses, Late, Settled, Visited, Waiting;
    var s := Visited(macros, |macros|);
    VisitedIsGrouped(macros, |macros|);
    SettledIsJoined(macros, s, |s.pending|);
    var d := Definitions(macros, |macros|);
    if o < |d| && macros[d[o]].target != "" {
      WaitingFor(macros, |macros|, d[o]);
      UsesSplit(macros, macros[d[o]].target, 0, d[o], |macros|);
    }
  }

  /** The footnote of a definition, apart from its number. */
  ghost predicate FootnoteOf(macros: seq<Macro>, i: nat, f: Footnote)
    requires i < |macros|
  {
    && HasText(macros[i])
    && f == Note(macros, i, 0, f.occurrences).(number := f.number)
    && multiset(f.occurrences) == multiset(Group(macros, i)) && Ordered(f.occurrences, RangeKey)
  }

  lemma DefinitionHasFootnote(macros: seq<Macro>, i: nat) returns (k: nat)
    requires i < |macros| && Defines(macros, i)
    ensures k < |Built(macros).footnotes| && FootnoteOf(macros, i, Built(macros).footnotes[k])
  {
    hide Definitions, Defines, FootnoteOf, Gathered, SortBy, Arranged, FootnoteKey;
    var d, arranged := Definitions(macros, |macros|), AllArranged(Gathered(macros).footnotes);
    DefinitionsAre(macros, |macros|);
    GatheredIs(macros, 0);
    var o :| 0 <= o < |d| && d[o] == i;
    ArrangedIs(macros, o);
    SortHolds(arranged, FootnoteKey);
    assert arranged[o] in SortBy(arranged, FootnoteKey);
    k :| 0 <= k < |arranged| && SortBy(arranged, FootnoteKey)[k] == arranged[o];
    NumberIsFree(macros, i, arranged[o], k + 1);
  }

  lemma FootnoteHasDefinition(macros: seq<Macro>, k: nat) returns (i: nat)
    requires k < |Built(macros).footnotes|
    ensures i < |macros| && Defines(macros, i) && FootnoteOf(macros, i, Built(macros).footnotes[k])
  {
    hide Definitions, Defines, FootnoteOf, Gathered, SortBy, Arranged, FootnoteKey;
    var d, arranged := Definitions(macros, |macros|), AllArranged(Gathered(macros).footnotes);
    SortHolds(arranged, FootnoteKey);
    GatheredIs(macros, 0);
    assert SortBy(arranged, FootnoteKey)[k] in arranged;
    var o :| 0 <= o < |arranged| && arranged[o] == SortBy(arranged, FootnoteKey)[k];
    ArrangedIs(macros, o);
    i := d[o];
    NumberIsFree(macros, i, arranged[o], k + 1);
  }

  ghost predicate IsGroup(macros: seq<Macro>, f: Footnote) {
    exists i :: 0 <= i < |macros| && Defines(macros, i) && FootnoteOf(macros, i, f)
  }

  /** A definition has a footnote, with every use of its name; each footnote is that of a
      definition, and there are as many. */
  lemma FootnotesAreGroups(macros: seq<Macro>)
    ensures var fs := Built(macros).footnotes;
      && |fs| == |Definitions(macros, |macros|)|
      && (forall i :: 0 <= i < |macros| && Defines(macros, i) ==>
         exists k :: 0 <= k < |fs| && FootnoteOf(macros, i, fs[k]))
      && (forall k :: 0 <= k < |fs| ==> IsGroup(macros, fs[k]))
  {
    hide Definitions, Defines, FootnoteOf, Built;
    var fs := Built(macros).footnotes;
    AsManyFootnotes(macros);
    forall i | 0 <= i < |macros| && Defines(macros, i)
      ensures exists k :: 0 <= k < |fs| && FootnoteOf(macros, i, fs[k]) {
      var k := DefinitionHasFootnote(macros, i);
    }
    forall k | 0 <= k < |fs| ensures IsGroup(macros, fs[k]) {
      var i := FootnoteHasDefinition(macros, k);
      assert i < |macros| && Defines(macros, i) && FootnoteOf(macros, i, fs[k]);
    }
  }

  lemma AsManyFootnotes(macros: seq<Macro>)
    ensures |Built(macros).footnotes| == |Definitions(macros, |macros|)|
  {
    hide Definitions, Gathered, SortBy, Arranged;
    GatheredIs(macros, 0);
    SortHolds(AllArranged(Gathered(macros).footnotes), FootnoteKey);
  }

  lemma ArrangedIs(macros: seq<Macro>, o: nat)
    requires o < |Gathered(macros).footnotes|
    ensures o < |Definitions(macros, |macros|)|
    ensures var i := Definitions(macros, |macros|)[o];
      Defines(macros, i) && FootnoteOf(macros, i, Arranged(Gathered(macros).footnotes[o]))
  {
    hide Definitions, Gathered, Group, SortBy, Ordered, Defined;
    GatheredIs(macros, o);
    var f := Gathered(macros).footnotes[o];
    SortHolds(f.occurrences, RangeKey);
    SortOrdered(f.occurrences, RangeKey);
  }

  lemma NumberIsFree(macros: seq<Macro>, i: nat, f: Footnote, number: nat)
    requires i < |macros| && FootnoteOf(macros, i, f)
    ensures FootnoteOf(macros, i, f.(number := number))
  {
    hide Group, Ordered;
  }

  /** Footnotes are numbered from one in the order in which their first occurrences start. */
  lemma NumbersFollowText(macros: seq<Macro>)
    ensures var fs := Built(macros).footnotes;
      && (forall k :: 0 <= k < |fs| ==> fs[k].number == k + 1 && fs[k].occurrences != [])
      && (forall j, k :: 0 <= j < k < |fs| && fs[j].occurrences != [] && fs[k].occurrences != [] ==>
           fs[j].occurrences[0].start <= fs[k].occurrences[0].start)
  {
    hide Gathered, SortBy, Arranged;
    var fs := Built(macros).footnotes;
    var arranged := AllArranged(Gathered(macros).footnotes);
    SortOrdered(arranged, FootnoteKey);
    forall k | 0 <= k < |fs| ensures fs[k].occurrences != [] {
      FootnoteIsUsed(macros, k);
    }
    forall j, k | 0 <= j < k < |fs| ensures AtMost(FootnoteKey(fs[j]), FootnoteKey(fs[k])) {
      var sorted := SortBy(arranged, FootnoteKey);
      assert FootnoteKey(fs[j]) == FootnoteKey(sorted[j]) && FootnoteKey(fs[k]) == FootnoteKey(sorted[k]);
    }
  }

  lemma FootnoteIsUsed(macros: seq<Macro>, k: nat)
    requires k < |Built(macros).footnotes|
    ensures Built(macros).footnotes[k].occurrences != []
  {
    hide Built, Defines, Group;
    var i := FootnoteHasDefinition(macros, k);
    GroupHasOne(macros, i);
  }

  lemma GroupHasOne(macros: seq<Macro>, i: nat)
    requires i < |macros|
    ensures |multiset(Group(macros, i))| == |Group(macros, i)| > 0
  {
    if macros[i].target != "" {
      UsesSplit(macros, macros[i].target, 0, i + 1, |macros|);
    }
  }

  ghost predicate Ascending(s: seq<TextRange>) {
    forall j, k :: 0 <= j < k < |s| ==> s[j].start < s[k].start
  }

  /** When no two uses of a name start together, its occurrences are its uses in document order. */
  lemma GroupInOrder(macros: seq<Macro>, i: nat, f: Footnote)
    requires i < |macros| && FootnoteOf(macros, i, f) && Ascending(Group(macros, i))
    ensures f.occurrences == Group(macros, i)
  {
    hide Ordered, Ascending, Group;
    OneOrder(f.occurrences, Group(macros, i));
  }

  lemma {:induction false} OneOrder(a: seq<TextRange>, b: seq<TextRange>)
    requires multiset(a) == multiset(b) && Ordered(a, RangeKey) && Ascending(b)
    ensures a == b
    decreases |b|
  {
    hide Ordered, Ascending;
    assert |multiset(a)| == |a| && |multiset(b)| == |b|;
    if b != [] {
      SameHead(a, b);
      TailsInOrder(a, b);
      assert a == [a[0]] + a[1..] && b == [b[0]] + b[1..];
      assert multiset(a[1..]) == multiset(a) - multiset{a[0]} == multiset(b[1..]);
      OneOrder(a[1..], b[1..]);
    }
  }

  lemma TailsInOrder(a: seq<TextRange>, b: seq<TextRange>)
    requires Ordered(a, RangeKey) && Ascending(b) && a != [] && b != []
    ensures Ordered(a[1..], RangeKey) && Ascending(b[1..])
  {
  }

  lemma SameHead(a: seq<TextRange>, b: seq<TextRange>)
    requires multiset(a) == multiset(b) && Ordered(a, RangeKey) && Ascending(b) && a != [] && b != []
    ensures a[0] == b[0]
  {
    assert a[0] in multiset(b) && b[0] in multiset(a);
    var k :| 0 <= k < |b| && b[k] == a[0];
    var m :| 0 <= m < |a| && a[m] == b[0];
    if m > 0 {
      assert AtMost(RangeKey(a[0]), RangeKey(a[m]));
    }
    assert b[k].start <= b[0].start;
  }

  predicate Undefined(macros: seq<Macro>, name: Text) {
    name != "" && !Defined(macros, name, |macros|)
  }

  /** A missing definition is reported exactly for uses of names that are never defined. */
  lemma MissingIff(macros: seq<Macro>, r: TextRange)
    ensures MissingDefinition(r) in Built(macros).problems <==>
      exists j :: 0 <= j < |macros| && macros[j].range == r && Undefined(macros, macros[j].target)
  {
    hide Definitions, Visited, Settled, Waiting, Defined, Finished, Undefined;
    var s := Visited(macros, |macros|);
    VisitedIsGrouped(macros, |macros|);
    VisitedReports(macros, |macros|);
    SettledReports(s, |s.pending|, r);
    WaitingIff(macros, |macros|, r);
    assert s.pending == Waiting(macros, |macros|);
    assert Built(macros).problems == Settled(s, |s.pending|).problems;
    forall j | 0 <= j < |s.pending| ensures s.pending[j].name !in s.named <==> Undefined(macros, s.pending[j].name) {
      WaitingHasName(macros, |macros|, j);
      NamedOrUndefined(macros, s, s.pending[j].name);
    }
    if MissingDefinition(r) in Built(macros).problems {
      var j :| 0 <= j < |s.pending| && s.pending[j].range == r && s.pending[j].name !in s.named;
      assert Waiting(macros, |macros|)[j].range == r && Undefined(macros, Waiting(macros, |macros|)[j].name);
    }
    if exists j :: 0 <= j < |macros| && macros[j].range == r && Undefined(macros, macros[j].target) {
      var j :| 0 <= j < |Waiting(macros, |macros|)| && Waiting(macros, |macros|)[j].range == r
        && Undefined(macros, Waiting(macros, |macros|)[j].name);
      assert s.pending[j].range == r && s.pending[j].name !in s.named;
    }
  }

  lemma NamedOrUndefined(macros: seq<Macro>, s: State, n: Text)
    requires Grouped(macros, |macros|, s) && n != ""
    ensures n !in s.named <==> Undefined(macros, n)
  {
    hide Defined;
  }

  lemma {:induction false} VisitedReports(macros: seq<Macro>, k: nat)
    requires k <= |macros|
    ensures forall p :: p in Visited(macros, k).problems ==> p.DuplicateDefinition?
  {
    hide Add, Pushed, HasText;
    if k > 0 {
      VisitedReports(macros, k - 1);
    }
  }

  lemma {:induction false} SettledReports(s: State, k: nat, r: TextRange)
    requires InBounds(s) && k <= |s.pending| && forall p :: p in s.problems ==> p.DuplicateDefinition?
    ensures MissingDefinition(r) in Settled(s, k).problems <==>
      exists j :: 0 <= j < k && s.pending[j].range == r && s.pending[j].name !in s.named
  {
    hide Add;
    if k > 0 {
      SettledReports(s, k - 1, r);
    }
  }

  /** Undefined names are those that wait for good. */
  lemma {:induction false} WaitingIff(macros: seq<Macro>, k: nat, r: TextRange)
    requires k <= |macros|
    ensures
      (exists j :: 0 <= j < |Waiting(macros, k)| &&
         Waiting(macros, k)[j].range == r && Undefined(macros, Waiting(macros, k)[j].name))
      <==> exists j :: 0 <= j < k && macros[j].range == r && Undefined(macros, macros[j].target)
  {
    hide Defined, Undefined;
    if k > 0 {
      WaitingIff(macros, k - 1, r);
      var w, v, m := Waiting(macros, k - 1), Waiting(macros, k), macros[k - 1];
      DefinedLater(macros, m.target, k);
      assert forall j :: 0 <= j < |w| ==> v[j] == w[j];
      if m.range == r && Undefined(macros, m.target) {
        assert v[|w|] == Reference(m.target, r);
      }
      if exists j :: 0 <= j < k - 1 && macros[j].range == r && Undefined(macros, macros[j].target) {
        var i :| 0 <= i < |w| && w[i].range == r && Undefined(macros, w[i].name);
        assert v[i] == w[i];
      }
    }
  }

  lemma DefinedLater(macros: seq<Macro>, n: Text, k: nat)
    requires k <= |macros|
    ensures Undefined(macros, n) ==> n != "" && !Defined(macros, n, k)
  {
  }

  /** A macro that defines a name again, and the first definition. */
  predicate Repeats(macros: seq<Macro>, i: nat, j: nat) {
    i < j < |macros| && Defines(macros, i) && HasText(macros[j]) && macros[j].target == macros[i].target != ""
  }

  /** A duplicate definition is reported exactly for definitions after the first of a name,
      together with the first. */
  lemma DuplicateIff(macros: seq<Macro>, r: TextRange, first: TextRange)
    ensures DuplicateDefinition(r, first) in Built(macros).problems <==>
      exists i, j :: 0 <= i < j < |macros| && Repeats(macros, i, j) && macros[j].range == r && macros[i].range == first
  {
    hide Visited, Settled, Finished, Repeats;
    var s := Visited(macros, |macros|);
    SettledKeepsDuplicates(s, |s.pending|, DuplicateDefinition(r, first));
    VisitedDuplicates(macros, |macros|, r, first);
  }

  lemma {:induction false} SettledKeepsDuplicates(s: State, k: nat, p: Problem)
    requires InBounds(s) && k <= |s.pending| && p.DuplicateDefinition?
    ensures p in Settled(s, k).problems <==> p in s.problems
  {
    hide Add;
    if k > 0 {
      SettledKeepsDuplicates(s, k - 1, p);
    }
  }

  lemma {:induction false} VisitedDuplicates(macros: seq<Macro>, k: nat, r: TextRange, first: TextRange)
    requires k <= |macros|
    ensures DuplicateDefinition(r, first) in Visited(macros, k).problems <==>
      exists i, j :: 0 <= i < j < k && Repeats(macros, i, j) && macros[j].range == r && macros[i].range == first
  {
    hide Repeats, Step;
    if k > 0 {
      VisitedDuplicates(macros, k - 1, r, first);
      VisitedIsGrouped(macros, k - 1);
      StepDuplicates(macros, k - 1, Visited(macros, k - 1), r, first);
    }
  }

  lemma StepDuplicates(macros: seq<Macro>, k: nat, s: State, r: TextRange, first: TextRange)
    requires k < |macros| && InBounds(s) && Grouped(macros, k, s)
    ensures DuplicateDefinition(r, first) in Step(s, macros[k]).problems <==>
      DuplicateDefinition(r, first) in s.problems
        || (macros[k].range == r && exists i :: 0 <= i < k && Repeats(macros, i, k) && macros[i].range == first)
  {
    hide Definitions, Defined, Waiting, Uses, HasText;
    var m := macros[k];
    if m.target in s.named {
      var i := Definitions(macros, k)[s.named[m.target]];
      assert s.footnotes[s.named[m.target]].definition == macros[i].range;
      forall h | 0 <= h < k && Repeats(macros, h, k) ensures h == i {
        DefinedOnce(macros, h, i);
      }
    } else {
      NamedWhenDefined(macros, k, s, m.target);
      forall h | 0 <= h < k ensures !Repeats(macros, h, k) {
        if Repeats(macros, h, k) {
          NotYet(macros, h, k);
        }
      }
    }
  }

  lemma NotYet(macros: seq<Macro>, h: nat, k: nat)
    requires h < k < |macros| && Repeats(macros, h, k)
    ensures macros[k].target != "" && Defined(macros, macros[k].target, k)
  {
  }
}
