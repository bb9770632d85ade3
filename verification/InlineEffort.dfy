/** How many positions the construction of the candidate index inspects: the e-mail and URL
    scans start only where a maximal run starts, so the whole count is linear. */
module InlineEffort {
  import opened Text
  import opened InlineModel
  import opened InlineGrammar
  import opened InlineCandidates

  // ---------------------------------------------------------------- what each pass counts

  function CharCount(v: Segment, i: nat): nat
    requires i <= |v| && Boundary(v, i)
    decreases |v| - i
  {
    if i == |v| then 0 else 1 + CharCount(v, Next(v, i))
  }

  function PreparseSteps(t: WordTable, v: Segment, i: nat): nat
    requires i <= |v| && Boundary(v, i)
    decreases |v| - i
  {
    if |v| <= i + 1 then 0 else 1 + PreparseSteps(t, v, PreparseAt(t, v, i).0)
  }

  function MonospaceSteps(v: Segment, i: nat): nat
    requires i <= |v|
    decreases |v| - i
  {
    if i == |v| then 0 else if v[i] != '`' then 1 + MonospaceSteps(v, i + 1)
    else 1 + MonospaceSteps(v, SkipWhile(v, i, Backtick))
  }

  /** The run of an e-mail's local part, and the unit that ends it. */
  function LocalScan(v: Segment, i: nat): nat
    requires i <= |v|
  {
    var at := SkipWhile(v, i, EmailLocal);
    if at == |v| then |v| - i else at + 1 - i
  }

  function DomainScan(v: Segment, i: nat): nat
    requires i <= |v|
  {
    var at := SkipWhile(v, i, EmailLocal);
    if at < |v| && v[at] == '@' then SkipWhile(v, at + 1, EmailDomain) - (at + 1) else 0
  }

  /** The run of a URL scheme, and the character that ends it. */
  function UrlScan(v: Segment, i: nat): (r: nat)
    requires i <= |v| && Boundary(v, i)
    ensures r <= |v| - i
  {
    var e := SkipWhile(v, i, SchemeUnit);
    if e == |v| then |v| - i
    else
      SchemeEndsWhole(v, i);
      Next(v, e) - i
  }

  lemma SchemeEndsWhole(v: Segment, i: nat)
    requires i <= |v| && Boundary(v, i)
    ensures Boundary(v, SkipWhile(v, i, SchemeUnit))
  {
    var e := SkipWhile(v, i, SchemeUnit);
    if i < e {
      assert SchemeUnit(v[e - 1]);
      AsciiIsWhole(v, e - 1);
    }
  }

  /** What the test for a macro at `i` scans. */
  function MacroScan(v: Segment, i: nat): nat
    requires i < |v| && Boundary(v, i)
  {
    if NamedMacro(v, i) then 0
    else if EmailStart(v, i) && EmailEnd(v, i).Some? then LocalScan(v, i) + DomainScan(v, i)
    else (if EmailStart(v, i) then LocalScan(v, i) + DomainScan(v, i) else 0) + if UrlStart(v, i) then
      UrlScan(v, i) else 0
  }

  function VisitSteps(v: Segment, i: nat, guarded: bool): nat
    requires i < |v| && Boundary(v, i)
  {
    1 + if guarded || EscapesAnchor(v, i) then 0 else MacroScan(v, i)
  }

  function MainSteps(t: WordTable, v: Segment, i: nat, guarded: set<int>): nat
    requires i <= |v| && Boundary(v, i)
    decreases |v| - i
  {
    if i == |v| then 0
    else
      VisitSteps(v, i, i in guarded)
      + MainSteps(t, v, Next(v, i), GuardedAfter(VisitAt(t, v, i, i in guarded), i, guarded))
  }

  /** The positions inspected by all passes together. */
  function Effort(t: WordTable, v: Segment): nat {
    var preparsed := Preparse(t, v, 0);
    var monospace := Monospace(t, v, 0, None, preparsed.guarded);
    var scanned := MainScan(t, v, 0, monospace.guarded);
    |v| + PreparseSteps(t, v, 0) + MonospaceSteps(v, 0) + |v| + CharCount(v, 0)
    + MainSteps(t, v, 0, monospace.guarded)
    + 2 * (|preparsed.candidates| + |monospace.candidates| + |scanned.candidates|) + CharCount(v, 0) + |v|
  }

  // ---------------------------------------------------------------- one step per position

  lemma {:induction false} FewSteps(t: WordTable, v: Segment, i: nat)
    requires i <= |v| && Boundary(v, i)
    ensures CharCount(v, i) <= |v| - i && PreparseSteps(t, v, i) <= |v| - i
    decreases |v| - i
  {
    hide PreparseAt;
    if i < |v| {
      FewSteps(t, v, Next(v, i));
    }
    if i + 1 < |v| {
      FewSteps(t, v, PreparseAt(t, v, i).0);
    }
  }

  lemma {:induction false} FewMonospaceSteps(v: Segment, i: nat)
    requires i <= |v|
    ensures MonospaceSteps(v, i) <= |v| - i
    decreases |v| - i
  {
    if i < |v| {
      FewMonospaceSteps(v, i + 1);
      if v[i] == '`' {
        assert SkipWhile(v, i, Backtick) > i;
        FewMonospaceSteps(v, SkipWhile(v, i, Backtick));
      }
    }
  }

  // ---------------------------------------------------------------- scans start at runs

  function LocalSum(v: Segment, i: nat): nat
    requires i <= |v|
    decreases |v| - i
  {
    if i == |v| then 0 else (if EmailStart(v, i) then LocalScan(v, i) else 0) + LocalSum(v, i + 1)
  }

  function DomainSum(v: Segment, i: nat): nat
    requires i <= |v|
    decreases |v| - i
  {
    if i == |v| then 0 else (if EmailStart(v, i) then DomainScan(v, i) else 0) + DomainSum(v, i + 1)
  }

  function UrlSum(v: Segment, i: nat): nat
    requires i <= |v|
    decreases |v| - i
  {
    if i == |v| then 0
    else (if UrlStart(v, i) then AsciiIsWhole(v, i); UrlScan(v, i) else 0) + UrlSum(v, i + 1)
  }

  lemma {:induction false} NoStartsBetween(v: Segment, i: nat, j: nat)
    requires i <= j <= |v| && forall k :: i <= k < j ==> !EmailStart(v, k)
    ensures LocalSum(v, i) == LocalSum(v, j) && DomainSum(v, i) == DomainSum(v, j)
    decreases j - i
  {
    hide EmailStart, LocalScan, DomainScan;
    if i < j {
      NoStartsBetween(v, i + 1, j);
    }
  }

  lemma {:induction false} NoUrlsBetween(v: Segment, i: nat, j: nat)
    requires i <= j <= |v| && forall k :: i <= k < j ==> !UrlStart(v, k)
    ensures UrlSum(v, i) == UrlSum(v, j)
    decreases j - i
  {
    hide UrlStart, UrlScan;
    if i < j {
      NoUrlsBetween(v, i + 1, j);
    }
  }

  /** After the start of a local part, the next start comes after the unit that ends it. */
  lemma RunHasOneStart(v: Segment, i: nat)
    requires i < |v| && EmailStart(v, i)
    ensures var at := SkipWhile(v, i, EmailLocal); i < at && forall k :: i < k <= at && k < |v| ==> !EmailStart(v, k)
  {
    var at := SkipWhile(v, i, EmailLocal);
    assert at > i;
    forall k | i < k <= at && k < |v| ensures !EmailStart(v, k) {
      if k < at {
        assert EmailLocal(v[k - 1]);
      }
    }
  }

  lemma {:induction false} LocalScansAreApart(v: Segment, i: nat)
    requires i <= |v|
    ensures LocalSum(v, i) <= |v| - i
    decreases |v| - i
  {
    hide EmailStart, EmailLocal;
    if i < |v| {
      if EmailStart(v, i) {
        var at := SkipWhile(v, i, EmailLocal);
        RunHasOneStart(v, i);
        var next := if at < |v| then at + 1 else at;
        NoStartsBetween(v, i + 1, next);
        LocalScansAreApart(v, next);
      } else {
        LocalScansAreApart(v, i + 1);
      }
    }
  }

  lemma {:induction false} SkipIsLast(v: Segment, i: nat, j: nat, p: char -> bool)
    requires i <= j <= |v| && (forall k :: i <= k < j ==> p(v[k])) && (j < |v| ==> !p(v[j]))
    ensures SkipWhile(v, i, p) == j
    decreases j - i
  {
    if i < j {
      SkipIsLast(v, i + 1, j, p);
    }
  }

  lemma DomainIsLocal(v: Segment, i: nat)
    requires i <= |v|
    ensures SkipWhile(v, i, EmailDomain) <= SkipWhile(v, i, EmailLocal)
  {
    assert forall c :: EmailDomain(c) ==> EmailLocal(c);
  }

  /** A unit in a run of domain units right behind an `@`. */
  predicate DomainByte(v: Segment, j: nat)
    requires j < |v|
  {
    EmailDomain(v[j]) && 0 < j && (v[j - 1] == '@' || DomainByte(v, j - 1))
  }

  function DomainBytes(v: Segment, i: nat): nat
    requires i <= |v|
    decreases |v| - i
  {
    if i == |v| then 0 else (if DomainByte(v, i) then 1 else 0) + DomainBytes(v, i + 1)
  }

  lemma {:induction false} DomainRun(v: Segment, from: nat, i: nat, end: nat)
    requires 0 < from <= i <= end <= |v| && v[from - 1] == '@' && forall j :: from <= j < end ==> EmailDomain(v[j])
    requires from < i ==> DomainByte(v, i - 1)
    ensures DomainBytes(v, i) == end - i + DomainBytes(v, end)
    decreases end - i
  {
    if i < end {
      DomainRun(v, from, i + 1, end);
    }
  }

  lemma {:induction false} DomainBytesShrink(v: Segment, i: nat, j: nat)
    requires i <= j <= |v|
    ensures DomainBytes(v, j) <= DomainBytes(v, i)
    decreases j - i
  {
    hide DomainByte;
    if i < j {
      DomainBytesShrink(v, i + 1, j);
    }
  }

  /** A domain lies in the local run that follows its `@`. */
  lemma {:induction false} DomainScansAreApart(v: Segment, i: nat)
    requires i <= |v|
    ensures DomainSum(v, i) <= DomainBytes(v, SkipWhile(v, i, EmailLocal))
    decreases |v| - i
  {
    hide EmailStart, EmailLocal, EmailDomain, DomainByte;
    if i < |v| {
      var at := SkipWhile(v, i, EmailLocal);
      if EmailStart(v, i) {
        RunHasOneStart(v, i);
        if at < |v| {
          NoStartsBetween(v, i + 1, at + 1);
          DomainScansAreApart(v, at + 1);
          DomainIsLocal(v, at + 1);
          var d, l := SkipWhile(v, at + 1, EmailDomain), SkipWhile(v, at + 1, EmailLocal);
          DomainBytesShrink(v, d, l);
          DomainBytesShrink(v, at, at + 1);
          if v[at] == '@' {
            DomainRun(v, at + 1, at + 1, d);
          } else {
            DomainBytesShrink(v, at + 1, l);
          }
        } else {
          NoStartsBetween(v, i + 1, at);
        }
      } else {
        DomainScansAreApart(v, i + 1);
        if EmailLocal(v[i]) {
          SkipIsLast(v, i, SkipWhile(v, i + 1, EmailLocal), EmailLocal);
        } else {
          DomainBytesShrink(v, i, SkipWhile(v, i + 1, EmailLocal));
        }
      }
    }
  }

  lemma UrlHasOneStart(v: Segment, i: nat)
    requires i < |v| && UrlStart(v, i)
    ensures Boundary(v, i)
    ensures i < i + UrlScan(v, i) <= |v| && forall k :: i < k < i + UrlScan(v, i) ==> !UrlStart(v, k)
  {
    AsciiIsWhole(v, i);
    var e := SkipWhile(v, i, SchemeUnit);
    SchemeEndsWhole(v, i);
    assert e > i;
    if e < |v| {
      NextIsNext(v, e);
    }
    forall k | i < k < i + UrlScan(v, i) ensures !UrlStart(v, k) {
      if k < e {
        assert SchemeUnit(v[k - 1]);
      }
    }
  }

  lemma {:induction false} UrlScansAreApart(v: Segment, i: nat)
    requires i <= |v|
    ensures UrlSum(v, i) <= |v| - i
    decreases |v| - i
  {
    hide UrlStart, UrlScan;
    if i < |v| {
      if UrlStart(v, i) {
        UrlHasOneStart(v, i);
        var next := i + UrlScan(v, i);
        NoUrlsBetween(v, i + 1, next);
        UrlScansAreApart(v, next);
      } else {
        UrlScansAreApart(v, i + 1);
      }
    }
  }

  lemma {:induction false} SumsShrink(v: Segment, i: nat, j: nat)
    requires i <= j <= |v|
    ensures LocalSum(v, j) <= LocalSum(v, i) && DomainSum(v, j) <= DomainSum(v, i) && UrlSum(v, j) <= UrlSum(v, i)
    decreases j - i
  {
    hide EmailStart, LocalScan, DomainScan, UrlStart, UrlScan;
    if i < j {
      SumsShrink(v, i + 1, j);
    }
  }

  /** The main scan takes one step for each character, and the scans on top. */
  lemma {:induction false} MainStepsBounded(t: WordTable, v: Segment, i: nat, guarded: set<int>)
    requires i <= |v| && Boundary(v, i)
    ensures MainSteps(t, v, i, guarded) <= CharCount(v, i) + LocalSum(v, i) + DomainSum(v, i) + UrlSum(v, i)
    decreases |v| - i
  {
    hide VisitAt, GuardedAfter, EmailStart, LocalScan, DomainScan, UrlStart, UrlScan, NamedMacro, EmailEnd,
      EscapesAnchor;
    if i < |v| {
      MainStepsBounded(t, v, Next(v, i), GuardedAfter(VisitAt(t, v, i, i in guarded), i, guarded));
      SumsShrink(v, i + 1, Next(v, i));
    }
  }

  // ---------------------------------------------------------------- candidates

  /** The positions from `i` on that are not guarded. */
  function Unguarded(g: set<int>, i: nat, end: nat): nat
    requires i <= end
    decreases end - i
  {
    if i == end then 0 else (if i in g then 0 else 1) + Unguarded(g, i + 1, end)
  }

  lemma {:induction false} UnguardedMonotone(g: set<int>, h: set<int>, i: nat, end: nat)
    requires i <= end && forall x :: i <= x < end && x in g ==> x in h
    ensures Unguarded(h, i, end) <= Unguarded(g, i, end) <= end - i
    decreases end - i
  {
    if i < end {
      UnguardedMonotone(g, h, i + 1, end);
    }
  }

  lemma {:induction false} UnguardedSplit(g: set<int>, i: nat, j: nat, end: nat)
    requires i <= j <= end
    ensures Unguarded(g, i, end) == Unguarded(g, i, j) + Unguarded(g, j, end) && Unguarded(g, i, j) <= j - i
    decreases j - i
  {
    if i < j {
      UnguardedSplit(g, i + 1, j, end);
    }
  }

  lemma {:induction false} UnguardedLess(g: set<int>, x: nat, i: nat, end: nat)
    requires i <= x < end && x !in g
    ensures Unguarded(g + {x}, i, end) == Unguarded(g, i, end) - 1
    decreases end - i
  {
    if i < x {
      UnguardedLess(g, x, i + 1, end);
    } else {
      SameFrom(g, g + {x}, i + 1, end);
    }
  }

  lemma {:induction false} SameFrom(g: set<int>, h: set<int>, i: nat, end: nat)
    requires i <= end && forall x :: i <= x < end ==> (x in g <==> x in h)
    ensures Unguarded(g, i, end) == Unguarded(h, i, end)
    decreases end - i
  {
    if i < end {
      SameFrom(g, h, i + 1, end);
    }
  }

  /** A quotation or passthrough guards at least its first and its last unit. */
  lemma {:induction false} PreparsedGuard(t: WordTable, v: Segment, i: nat)
    requires i <= |v| && Boundary(v, i)
    ensures var p := Preparse(t, v, i); 2 * |p.candidates| + Unguarded(p.guarded, i, |v|) <= |v| - i
    decreases |v| - i
  {
    hide PreparseAt;
    if i + 1 < |v| {
      var (next, found) := PreparseAt(t, v, i);
      var rest := Preparse(t, v, next);
      var p := Preparse(t, v, i);
      PreparsedGuard(t, v, next);
      UnguardedSplit(p.guarded, i, next, |v|);
      UnguardedMonotone(rest.guarded, p.guarded, next, |v|);
      if found.Some? {
        EndsGuarded(t, v, i);
        UnguardedSplit(p.guarded, i, i + 1, next);
        UnguardedSplit(p.guarded, i + 1, next - 1, next);
      }
    } else {
      UnguardedMonotone({}, {}, i, |v|);
    }
  }

  lemma EndsGuarded(t: WordTable, v: Segment, i: nat)
    requires i + 1 < |v| && Boundary(v, i) && PreparseAt(t, v, i).1.Some?
    ensures var (next, found) := PreparseAt(t, v, i);
      i + 2 <= next && i in DelimiterOffsets(found.value) && next - 1 in DelimiterOffsets(found.value)
  {
    hide PreparseAt, StartsWith, Find;
  }

  /** A pair of backticks guards both. */
  lemma {:induction false} MonospaceGuards(t: WordTable, v: Segment, i: nat, pending: Option<nat>, guarded: set<int>)
    requires i <= |v| && (pending.Some? ==> pending.value < i && v[pending.value] == '`')
    ensures var p := Monospace(t, v, i, pending, guarded);
      2 * |p.candidates| + Unguarded(p.guarded, 0, |v|) <= Unguarded(guarded, 0, |v|)
    decreases |v| - i
  {
    hide IsEscaped, OpenBoundary, CloseBoundary, Unguarded;
    if i < |v| {
      if v[i] != '`' {
        MonospaceGuards(t, v, i + 1, pending, guarded);
      } else {
        var end := SkipWhile(v, i, Backtick);
        assert end > i;
        if end - i == 1 && pending.None? {
          MonospaceGuards(t, v, end, Some(i), guarded);
        } else if end - i == 1 && InvalidMonospace(t, v, pending.value, i, guarded) {
          MonospaceGuards(t, v, end, None, guarded + {pending.value, i});
          UnguardedLess(guarded, pending.value, 0, |v|);
          UnguardedLess(guarded + {pending.value}, i, 0, |v|);
          assert guarded + {pending.value} + {i} == guarded + {pending.value, i};
        } else {
          MonospaceGuards(t, v, end, None, guarded);
        }
      }
    }
  }

  /** The positions from `i` on that are neither guarded nor in a domain. */
  function Open(v: Segment, g: set<int>, i: nat): nat
    requires i <= |v|
    decreases |v| - i
  {
    if i == |v| then 0 else (if i in g || DomainByte(v, i) then 0 else 1) + Open(v, g, i + 1)
  }

  lemma {:induction false} OpenMonotone(v: Segment, g: set<int>, h: set<int>, i: nat, j: nat)
    requires i <= j <= |v| && forall x :: j <= x < |v| && x in g ==> x in h
    ensures Open(v, h, j) <= Open(v, g, j) && Open(v, g, j) <= Open(v, g, i)
    decreases |v| - i
  {
    hide DomainByte;
    if i < j {
      OpenMonotone(v, g, h, i + 1, j);
    } else if i < |v| {
      OpenMonotone(v, g, h, i + 1, i + 1);
    }
  }

  lemma {:induction false} OpenIsFew(v: Segment, g: set<int>, i: nat)
    requires i <= |v|
    ensures Open(v, g, i) <= Unguarded(g, i, |v|) && Open(v, g, i) + DomainBytes(v, i) <= |v| - i
    decreases |v| - i
  {
    hide DomainByte;
    if i < |v| {
      OpenIsFew(v, g, i + 1);
    }
  }

  /** Nothing opens inside a domain: no macro has its boundary there, and no marker is part of one. */
  lemma NothingInDomain(t: WordTable, v: Segment, i: nat)
    requires i < |v| && Boundary(v, i) && DomainByte(v, i)
    ensures var visit := VisitAt(t, v, i, false); !visit.Protect? && !visit.Found?
  {
    hide CandidateOk, MacroCandidate, OpenBoundary, Find, Boundary;
    FirstUnits(v, i);
    assert v[i - 1] == '@' || EmailDomain(v[i - 1]);
    assert Previous(v, i) == i - 1 && v[i - 1..i] == [v[i - 1]];
    assert BackslashRun(v, i) == 0;
  }

  lemma FirstUnits(v: Segment, i: nat)
    requires i < |v|
    ensures StartsWith(v, i, "<<") ==> v[i] == '<'
    ensures StartsWith(v, i, "[[") ==> v[i] == '['
    ensures StartsWith(v, i, "\\[[") || StartsWith(v, i, "\\[#") ==> v[i] == '\\'
  {
    assert i + 2 <= |v| ==> v[i..i + 2][0] == v[i];
    assert i + 3 <= |v| ==> v[i..i + 3][0] == v[i];
  }

  /** The main scan finds candidates only where nothing guards, and in no domain. */
  lemma {:induction false} ScannedAreOpen(t: WordTable, v: Segment, i: nat, guarded: set<int>)
    requires i <= |v| && Boundary(v, i)
    ensures |MainScan(t, v, i, guarded).candidates| <= Open(v, guarded, i)
    decreases |v| - i
  {
    hide CandidateOk, VisitAt, Increasing, DomainByte;
    if i < |v| {
      var visit := VisitAt(t, v, i, i in guarded);
      var next := Next(v, i);
      var after := GuardedAfter(visit, i, guarded);
      ScannedAreOpen(t, v, next, after);
      OpenMonotone(v, guarded, after, i + 1, next);
      GuardedIsSkipped(t, v, i);
      if DomainByte(v, i) {
        NothingInDomain(t, v, i);
      }
    }
  }

  lemma GuardedIsSkipped(t: WordTable, v: Segment, i: nat)
    requires i < |v| && Boundary(v, i)
    ensures VisitAt(t, v, i, true) == Skip
  {
  }

  // ---------------------------------------------------------------- the bound

  /** The index of a segment is built by inspecting at most twelve positions for each byte. */
  lemma EffortIsLinear(t: WordTable, v: Segment)
    ensures Effort(t, v) <= 12 * |v|
  {
    hide Preparse, Monospace, MainScan, CharCount, PreparseSteps, MonospaceSteps, MainSteps, LocalSum, DomainSum,
      UrlSum, Unguarded, Open, DomainBytes;
    var preparsed := Preparse(t, v, 0);
    var monospace := Monospace(t, v, 0, None, preparsed.guarded);
    FewSteps(t, v, 0);
    FewMonospaceSteps(v, 0);
    MainStepsBounded(t, v, 0, monospace.guarded);
    LocalScansAreApart(v, 0);
    DomainScansAreApart(v, 0);
    UrlScansAreApart(v, 0);
    PreparsedGuard(t, v, 0);
    MonospaceGuards(t, v, 0, None, preparsed.guarded);
    ScannedAreOpen(t, v, 0, monospace.guarded);
    OpenIsFew(v, monospace.guarded, 0);
    DomainBytesShrink(v, 0, SkipWhile(v, 0, EmailLocal));
  }
}
