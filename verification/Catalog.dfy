/** The footnote catalog: footnote macros grouped by name in two phases, sorted and numbered. */
module Catalog {
  import opened Text
  import opened Sorting

  /** A footnote macro. An empty target makes it anonymous. */
  datatype Macro = Macro(target: Text, text: Option<Text>, range: TextRange)

  datatype Footnote = Footnote(number: nat, id: Option<Text>, definition: TextRange, text: Text,
      occurrences: seq<TextRange>)

  datatype Problem = MissingDefinition(range: TextRange) | DuplicateDefinition(range: TextRange, first: TextRange)

  datatype Reference = Reference(name: Text, range: TextRange)

  datatype State = State(footnotes: seq<Footnote>, named: map<Text, nat>, pending: seq<Reference>,
      problems: seq<Problem>)

  predicate HasText(m: Macro) { m.text.Some? && m.text.value != "" }

  /** The text of a footnote: `\]` stands for `]`. */
  function Unescaped(t: Text): Text {
    if |t| < 2 then t else if t[0] == '\\' && t[1] == ']' then "]" + Unescaped(t[2..]) else [t[0]] + Unescaped(t[1..])
  }

  predicate InBounds(s: State) { forall n :: n in s.named ==> s.named[n] < |s.footnotes| }

  // ---------------------------------------------------------------- first phase: macros in order

  function Add(fs: seq<Footnote>, i: nat, r: TextRange): seq<Footnote>
    requires i < |fs|
  {
    fs[i := fs[i].(occurrences := fs[i].occurrences + [r])]
  }

  function Pushed(fs: seq<Footnote>, m: Macro): seq<Footnote>
    requires HasText(m)
  {
    fs + [Footnote(|fs| + 1, if m.target == "" then None
      else Some(m.target), m.range, Unescaped(m.text.value), [m.range])]
  }

  function Step(s: State, m: Macro): (t: State)
    requires InBounds(s)
    ensures InBounds(t)
  {
    if m.target == "" then
      if HasText(m) then s.(footnotes := Pushed(s.footnotes, m)) else s
    else if HasText(m) then
      if m.target in s.named then
        var i := s.named[m.target];
        s.(problems := s.problems + [DuplicateDefinition(m.range, s.footnotes[i].definition)],
          footnotes := Add(s.footnotes, i, m.range))
      else s.(footnotes := Pushed(s.footnotes, m), named := s.named[m.target := |s.footnotes|])
    else if m.target in s.named then s.(footnotes := Add(s.footnotes, s.named[m.target], m.range))
    else s.(pending := s.pending + [Reference(m.target, m.range)])
  }

  /** After the first `k` macros. */
  function Visited(macros: seq<Macro>, k: nat): (s: State)
    requires k <= |macros|
    ensures InBounds(s)
  {
    if k == 0 then State([], map[], [], []) else Step(Visited(macros, k - 1), macros[k - 1])
  }

  // ---------------------------------------------------------------- second phase: forward references

  function Settle(s: State, r: Reference): (t: State)
    requires InBounds(s)
    ensures InBounds(t) && t.named == s.named && t.pending == s.pending
  {
    if r.name in s.named then s.(footnotes := Add(s.footnotes, s.named[r.name], r.range))
    else s.(problems := s.problems + [MissingDefinition(r.range)])
  }

  /** After the first `k` pending references. */
  function Settled(s: State, k: nat): (t: State)
    requires InBounds(s) && k <= |s.pending|
    ensures InBounds(t) && t.named == s.named && t.pending == s.pending
  {
    if k == 0 then s else Settle(Settled(s, k - 1), s.pending[k - 1])
  }

  // ---------------------------------------------------------------- order and numbers

  function RangeKey(r: TextRange): Key { (r.start, 0) }

  function FootnoteKey(f: Footnote): Key {
    (if f.occurrences == [] then f.definition.start else f.occurrences[0].start, 0)
  }

  function Arranged(f: Footnote): Footnote { f.(occurrences := SortBy(f.occurrences, RangeKey)) }

  function AllArranged(fs: seq<Footnote>): (r: seq<Footnote>)
    ensures |r| == |fs| && forall i :: 0 <= i < |fs| ==> r[i] == Arranged(fs[i])
  {
    seq(|fs|, i requires 0 <= i < |fs| => Arranged(fs[i]))
  }

  function Numbered(fs: seq<Footnote>): (r: seq<Footnote>)
    ensures |r| == |fs| && forall i :: 0 <= i < |fs| ==> r[i] == fs[i].(number := i + 1)
  {
    seq(|fs|, i requires 0 <= i < |fs| => fs[i].(number := i + 1))
  }

  function Finished(fs: seq<Footnote>): seq<Footnote> {
    Numbered(SortBy(AllArranged(fs), FootnoteKey))
  }

  datatype Result = Result(footnotes: seq<Footnote>, problems: seq<Problem>)

  function Gathered(macros: seq<Macro>): State {
    var s := Visited(macros, |macros|);
    Settled(s, |s.pending|)
  }

  function Built(macros: seq<Macro>): Result {
    Result(Finished(Gathered(macros).footnotes), Gathered(macros).problems)
  }

  class Builder {
    var footnotes: seq<Footnote>
    var named: map<Text, nat>
    var pending: seq<Reference>
    var problems: seq<Problem>

    function Value(): State
      reads this
    {
      State(footnotes, named, pending, problems)
    }

    constructor ()
      ensures Value() == State([], map[], [], [])
    {
      footnotes := [];
      named := map[];
      pending := [];
      problems := [];
    }

    method PushFootnote(m: Macro, id: Option<Text>)
      requires HasText(m) && id == if m.target == "" then None else Some(m.target)
      modifies this
      ensures Value() == old(Value()).(footnotes := Pushed(old(footnotes), m))
    {
      footnotes := footnotes + [Footnote(|footnotes| + 1, id, m.range, Unescaped(m.text.value), [m.range])];
    }

    method AddOccurrence(i: nat, range: TextRange)
      requires i < |footnotes|
      modifies this
      ensures Value() == old(Value()).(footnotes := Add(old(footnotes), i, range))
    {
      footnotes := footnotes[i := footnotes[i].(occurrences := footnotes[i].occurrences + [range])];
    }

    method Visit(m: Macro)
      requires InBounds(Value())
      modifies this
      ensures Value() == Step(old(Value()), m)
    {
      if m.target == "" {
        if HasText(m) {
          PushFootnote(m, None);
        }
      } else if HasText(m) {
        if m.target in named {
          var existing := named[m.target];
          problems := problems + [DuplicateDefinition(m.range, footnotes[existing].definition)];
          AddOccurrence(existing, m.range);
        } else {
          var index := |footnotes|;
          PushFootnote(m, Some(m.target));
          named := named[m.target := index];
        }
      } else if m.target in named {
        AddOccurrence(named[m.target], m.range);
      } else {
        pending := pending + [Reference(m.target, m.range)];
      }
    }

    method SettlePending()
      requires InBounds(Value())
      modifies this
      ensures Value() == Settled(old(Value()), |old(pending)|)
    {
      ghost var s := Value();
      for i := 0 to |pending|
        invariant pending == s.pending && Value() == Settled(s, i)
      {
        var r := pending[i];
        if r.name in named {
          AddOccurrence(named[r.name], r.range);
        } else {
          problems := problems + [MissingDefinition(r.range)];
        }
      }
    }

    method Finish()
      modifies this
      ensures Value() == old(Value()).(footnotes := Finished(old(footnotes)))
    {
      ghost var fs := footnotes;
      ghost var others := Value();
      for i := 0 to |footnotes|
        invariant |footnotes| == |fs| && Value() == others.(footnotes := footnotes)
        invariant forall j :: 0 <= j < i ==> footnotes[j] == Arranged(fs[j])
        invariant forall j :: i <= j < |fs| ==> footnotes[j] == fs[j]
      {
        footnotes := footnotes[i := footnotes[i].(occurrences := SortBy(footnotes[i].occurrences, RangeKey))];
      }
      assert footnotes == AllArranged(fs);
      footnotes := SortBy(footnotes, FootnoteKey);
      ghost var sorted := footnotes;
      for i := 0 to |footnotes|
        invariant |footnotes| == |sorted| && Value() == others.(footnotes := footnotes)
        invariant forall j :: 0 <= j < i ==> footnotes[j] == sorted[j].(number := j + 1)
        invariant forall j :: i <= j < |sorted| ==> footnotes[j] == sorted[j]
      {
        footnotes := footnotes[i := footnotes[i].(number := i + 1)];
      }
      assert footnotes == Numbered(sorted);
    }
  }

  method Build(macros: seq<Macro>) returns (r: Result)
    ensures r == Built(macros)
  {
    var builder := new Builder();
    for i := 0 to |macros|
      invariant builder.Value() == Visited(macros, i)
    {
      builder.Visit(macros[i]);
    }
    builder.SettlePending();
    builder.Finish();
    r := Result(builder.footnotes, builder.problems);
  }

  // ---------------------------------------------------------------- conservation

  function AllOccurrences(fs: seq<Footnote>): multiset<TextRange> {
    if fs == [] then multiset{} else multiset(fs[0].occurrences) + AllOccurrences(fs[1..])
  }

  lemma {:induction false} OccurrencesAppend(a: seq<Footnote>, b: seq<Footnote>)
    ensures AllOccurrences(a + b) == AllOccurrences(a) + AllOccurrences(b)
    decreases |a|
  {
    if a == [] {
      assert a + b == b;
    } else {
      assert (a + b)[1..] == a[1..] + b;
      OccurrencesAppend(a[1..], b);
    }
  }

  lemma OccurrencesAround(fs: seq<Footnote>, i: nat, f: Footnote)
    requires i < |fs|
    ensures AllOccurrences(fs[i := f])
      == AllOccurrences(fs[..i]) + multiset(f.occurrences) + AllOccurrences(fs[i + 1..])
  {
    assert fs[i := f] == fs[..i] + ([f] + fs[i + 1..]);
    OccurrencesAppend(fs[..i], [f] + fs[i + 1..]);
    assert ([f] + fs[i + 1..])[1..] == fs[i + 1..];
  }

  lemma AddAddsOne(fs: seq<Footnote>, i: nat, r: TextRange)
    requires i < |fs|
    ensures AllOccurrences(Add(fs, i, r)) == AllOccurrences(fs) + multiset{r}
  {
    hide AllOccurrences;
    OccurrencesAround(fs, i, fs[i]);
    OccurrencesAround(fs, i, fs[i].(occurrences := fs[i].occurrences + [r]));
    assert fs[i := fs[i]] == fs;
  }

  lemma PushedAddsOne(fs: seq<Footnote>, m: Macro)
    requires HasText(m)
    ensures AllOccurrences(Pushed(fs, m)) == AllOccurrences(fs) + multiset{m.range}
  {
    var f := Pushed(fs, m)[|fs|];
    OccurrencesAppend(fs, [f]);
    assert AllOccurrences([f]) == multiset([m.range]) + AllOccurrences([]);
  }

  /** The ranges of all footnote macros but the empty anonymous ones. */
  function Meant(macros: seq<Macro>, k: nat): multiset<TextRange>
    requires k <= |macros|
  {
    if k == 0 then multiset{}
    else Meant(macros, k - 1) + MeantBy(macros[k - 1])
  }

  function PendingRanges(s: seq<Reference>, k: nat): multiset<TextRange>
    requires k <= |s|
  {
    if k == 0 then multiset{} else PendingRanges(s, k - 1) + multiset{s[k - 1].range}
  }

  lemma {:induction false} PendingPrefix(s: seq<Reference>, r: Reference, k: nat)
    requires k <= |s|
    ensures PendingRanges(s + [r], k) == PendingRanges(s, k)
  {
    if k > 0 {
      PendingPrefix(s, r, k - 1);
    }
  }

  function Missing(ps: seq<Problem>): multiset<TextRange> {
    if ps == [] then multiset{}
    else
      var last := ps[|ps| - 1];
      Missing(ps[..|ps| - 1]) + if last.MissingDefinition? then multiset{last.range} else multiset{}
  }

  lemma MissingAppend(ps: seq<Problem>, p: Problem)
    ensures Missing(ps + [p]) == Missing(ps) + if p.MissingDefinition? then multiset{p.range} else multiset{}
  {
    assert (ps + [p])[..|ps|] == ps;
  }

  /** What a macro adds to the occurrences and pending references. */
  function MeantBy(m: Macro): multiset<TextRange> {
    if m.target == "" && !HasText(m) then multiset{} else multiset{m.range}
  }

  lemma StepConserves(s: State, m: Macro)
    requires InBounds(s)
    ensures var t := Step(s, m);
      && AllOccurrences(t.footnotes) + PendingRanges(t.pending, |t.pending|)
         == AllOccurrences(s.footnotes) + PendingRanges(s.pending, |s.pending|) + MeantBy(m)
      && Missing(t.problems) == Missing(s.problems)
  {
    hide AllOccurrences, Missing, Add, Pushed, PendingRanges;
    PendingAppend(s.pending, Reference(m.target, m.range));
    if HasText(m) && (m.target == "" || m.target !in s.named) {
      PushedAddsOne(s.footnotes, m);
    } else if m.target in s.named {
      AddAddsOne(s.footnotes, s.named[m.target], m.range);
      MissingAppend(s.problems, DuplicateDefinition(m.range, s.footnotes[s.named[m.target]].definition));
    }
  }

  lemma PendingAppend(s: seq<Reference>, r: Reference)
    ensures PendingRanges(s + [r], |s| + 1) == PendingRanges(s, |s|) + multiset{r.range}
  {
    PendingPrefix(s, r, |s|);
  }

  lemma {:induction false} VisitedConserves(macros: seq<Macro>, k: nat)
    requires k <= |macros|
    ensures var s := Visited(macros, k);
      AllOccurrences(s.footnotes) + PendingRanges(s.pending, |s.pending|) == Meant(macros, k)
        && Missing(s.problems) == multiset{}
  {
    hide AllOccurrences, Missing, Step, MeantBy;
    if k == 0 {
      NothingYet();
    } else {
      VisitedConserves(macros, k - 1);
      StepConserves(Visited(macros, k - 1), macros[k - 1]);
    }
  }

  lemma NothingYet()
    ensures AllOccurrences([]) == multiset{} && Missing([]) == multiset{}
  {
  }

  lemma SettleConserves(s: State, r: Reference)
    requires InBounds(s)
    ensures var t := Settle(s, r);
      AllOccurrences(t.footnotes) + Missing(t.problems)
        == AllOccurrences(s.footnotes) + Missing(s.problems) + multiset{r.range}
  {
    hide AllOccurrences, Missing, Add;
    if r.name in s.named {
      AddAddsOne(s.footnotes, s.named[r.name], r.range);
    }
    MissingAppend(s.problems, MissingDefinition(r.range));
  }

  lemma {:induction false} SettledConserves(s: State, k: nat)
    requires InBounds(s) && k <= |s.pending| && Missing(s.problems) == multiset{}
    ensures var t := Settled(s, k);
      AllOccurrences(t.footnotes) + Missing(t.problems) == AllOccurrences(s.footnotes) + PendingRanges(s.pending, k)
  {
    hide AllOccurrences, Missing, Settle;
    if k > 0 {
      SettledConserves(s, k - 1);
      SettleConserves(Settled(s, k - 1), s.pending[k - 1]);
    }
  }

  lemma {:induction false} SameOccurrences(a: seq<Footnote>, b: seq<Footnote>)
    requires |a| == |b| && forall i :: 0 <= i < |a| ==> multiset(a[i].occurrences) == multiset(b[i].occurrences)
    ensures AllOccurrences(a) == AllOccurrences(b)
    decreases |a|
  {
    if a != [] {
      SameOccurrences(a[1..], b[1..]);
    }
  }

  lemma {:induction false} InsertKeepsOccurrences(f: Footnote, s: seq<Footnote>)
    ensures AllOccurrences(Insert(f, s, FootnoteKey)) == multiset(f.occurrences) + AllOccurrences(s)
    decreases |s|
  {
    hide FootnoteKey;
    if s == [] || AtMost(FootnoteKey(f), FootnoteKey(s[0])) {
      assert ([f] + s)[1..] == s;
    } else {
      InsertKeepsOccurrences(f, s[1..]);
      assert ([s[0]] + Insert(f, s[1..], FootnoteKey))[1..] == Insert(f, s[1..], FootnoteKey);
    }
  }

  lemma {:induction false} SortKeepsOccurrences(s: seq<Footnote>)
    ensures AllOccurrences(SortBy(s, FootnoteKey)) == AllOccurrences(s)
    decreases |s|
  {
    if s != [] {
      SortKeepsOccurrences(s[1..]);
      InsertKeepsOccurrences(s[0], SortBy(s[1..], FootnoteKey));
    }
  }

  /** Each footnote macro but an empty anonymous one is one occurrence of one footnote or one
      missing definition, and there are no others. */
  lemma EachMacroOnce(macros: seq<Macro>)
    ensures AllOccurrences(Built(macros).footnotes) + Missing(Built(macros).problems) == Meant(macros, |macros|)
  {
    hide AllOccurrences, Missing, Meant, Visited, Settled, SortBy;
    var s := Visited(macros, |macros|);
    var fs := Gathered(macros).footnotes;
    VisitedConserves(macros, |macros|);
    SettledConserves(s, |s.pending|);
    forall i | 0 <= i < |fs| ensures multiset(AllArranged(fs)[i].occurrences) == multiset(fs[i].occurrences) {
      SortHolds(fs[i].occurrences, RangeKey);
    }
    SameOccurrences(AllArranged(fs), fs);
    SortKeepsOccurrences(AllArranged(fs));
    SameOccurrences(Finished(fs), SortBy(AllArranged(fs), FootnoteKey));
  }
}
