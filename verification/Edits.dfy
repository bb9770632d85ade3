/** Text edits: validation, and application from the last to the first. */
module Edits {
  import opened Text

  datatype Edit = Edit(range: TextRange, replacement: Text)

  // ---------------------------------------------------------------- validation

  predicate Before(a: TextRange, b: TextRange) {
    a.start < b.start || (a.start == b.start && a.end <= b.end)
  }

  function Insert(e: Edit, s: seq<Edit>): (r: seq<Edit>)
    ensures |r| == |s| + 1 && forall x :: x in r <==> x == e || x in s
  {
    if s == [] || Before(e.range, s[0].range) then [e] + s
    else
      assert forall x :: x in s <==> x == s[0] || x in s[1..];
      [s[0]] + Insert(e, s[1..])
  }

  /** Stable order by start, then by end. */
  function Sorted(s: seq<Edit>): (r: seq<Edit>)
    ensures |r| == |s| && forall x :: x in r <==> x in s
  {
    if s == [] then []
    else
      assert forall x :: x in s <==> x == s[0] || x in s[1..];
      Insert(s[0], Sorted(s[1..]))
  }

  /** Neighbours are neither the same range nor overlap. */
  predicate NeighboursFit(s: seq<Edit>) {
    |s| < 2 || (s[0].range != s[1].range && s[0].range.end <= s[1].range.start && NeighboursFit(s[1..]))
  }

  /** A fix holds the edits in order, or is refused. */
  function FixOf(edits: seq<Edit>): Option<seq<Edit>> {
    var sorted := Sorted(edits);
    if NeighboursFit(sorted) then Some(sorted) else None
  }

  method NewFix(edits: seq<Edit>) returns (r: Option<seq<Edit>>)
    ensures r == FixOf(edits)
  {
    var sorted := Sorted(edits);
    var i: nat := 0;
    assert sorted[0..] == sorted;
    while i + 1 < |sorted|
      invariant i <= |sorted| && (NeighboursFit(sorted) <==> NeighboursFit(sorted[i..]))
    {
      assert sorted[i..][1..] == sorted[i + 1..];
      if sorted[i].range == sorted[i + 1].range {
        return None;
      }
      if sorted[i + 1].range.start < sorted[i].range.end {
        return None;
      }
      i := i + 1;
    }
    r := Some(sorted);
  }

  predicate Compatible(a: Edit, b: Edit) {
    a.range != b.range && (a.range.end <= b.range.start || b.range.end <= a.range.start)
  }

  predicate CompatibleWith(e: Edit, s: seq<Edit>) {
    forall x :: x in s ==> Compatible(e, x)
  }

  predicate AllCompatible(s: seq<Edit>) {
    s == [] || (CompatibleWith(s[0], s[1..]) && AllCompatible(s[1..]))
  }

  lemma {:induction false} ValidIsLater(s: seq<Edit>)
    requires NeighboursFit(s) && s != []
    ensures forall x :: x in s[1..] ==> s[0].range != x.range && s[0].range.end <= x.range.start
    decreases |s|
  {
    if |s| >= 2 {
      ValidIsLater(s[1..]);
      assert forall x :: x in s[1..] <==> x == s[1] || x in s[1..][1..];
      if |s| > 2 {
        assert s[1..][1] == s[2] && s[2] in s[1..][1..];
      }
    }
  }

  lemma {:induction false} InsertValid(e: Edit, s: seq<Edit>)
    requires NeighboursFit(s) && CompatibleWith(e, s)
    ensures NeighboursFit(Insert(e, s))
    decreases |s|
  {
    if s == [] || Before(e.range, s[0].range) {
      assert ([e] + s)[1..] == s;
      if s != [] {
        assert s[0] in s;
      }
    } else {
      assert s[0] in s;
      InsertValid(e, s[1..]);
      var rest := Insert(e, s[1..]);
      assert ([s[0]] + rest)[1..] == rest;
      assert rest[0] == e || rest[0] == s[1..][0] by { InsertFirst(e, s[1..]); }
    }
  }

  lemma InsertFirst(e: Edit, s: seq<Edit>)
    ensures Insert(e, s)[0] == e || (s != [] && Insert(e, s)[0] == s[0])
  {
  }

  lemma {:induction false} InsertInvalid(e: Edit, s: seq<Edit>)
    requires NeighboursFit(Insert(e, s))
    ensures NeighboursFit(s) && CompatibleWith(e, s)
    decreases |s|
  {
    var r := Insert(e, s);
    ValidIsLater(r);
    if s == [] || Before(e.range, s[0].range) {
      assert r[1..] == s;
    } else {
      assert r[1..] == Insert(e, s[1..]);
      InsertInvalid(e, s[1..]);
      assert forall x :: x in s <==> x == s[0] || x in s[1..];
      if |s| > 1 {
        assert s[1] in r[1..];
      }
    }
  }

  /** Edits are accepted exactly when no two have the same range or overlap. */
  lemma {:induction false} FixIff(edits: seq<Edit>)
    ensures FixOf(edits).Some? <==> AllCompatible(edits)
    decreases |edits|
  {
    if edits != [] {
      assert forall x :: x in edits <==> x == edits[0] || x in edits[1..];
      FixIff(edits[1..]);
      var rest := Sorted(edits[1..]);
      if NeighboursFit(rest) && CompatibleWith(edits[0], rest) {
        InsertValid(edits[0], rest);
      }
      if NeighboursFit(Insert(edits[0], rest)) {
        InsertInvalid(edits[0], rest);
      }
    }
  }

  /** Edits from left to right; only the last may be an insertion. */
  ghost predicate Ascending(s: seq<Edit>, from: nat, end: nat) {
    if s == [] then from <= end
    else
      && from <= s[0].range.start && (s[0].range.start < s[0].range.end || |s| == 1)
      && Ascending(s[1..], s[0].range.end, end)
  }

  lemma {:induction false} AscendingIsLater(s: seq<Edit>, from: nat, end: nat)
    requires Ascending(s, from, end)
    ensures from <= end && forall x :: x in s ==> from <= x.range.start && x.range.end <= end
    decreases |s|
  {
    if s != [] {
      AscendingIsLater(s[1..], s[0].range.end, end);
      assert forall x :: x in s <==> x == s[0] || x in s[1..];
    }
  }

  /** Ascending edits are a fix as they stand. */
  lemma {:induction false} AscendingIsFix(s: seq<Edit>, from: nat, end: nat)
    requires Ascending(s, from, end)
    ensures FixOf(s) == Some(s)
    decreases |s|
  {
    if s != [] {
      var e, rest := s[0], s[1..];
      AscendingIsFix(rest, e.range.end, end);
      assert [e] + rest == s;
      if rest != [] {
        assert rest[0] == s[1] && e.range.end <= rest[0].range.start && e.range.start < e.range.end;
        assert Insert(e, rest) == [e] + rest;
      }
    }
  }

  // ---------------------------------------------------------------- application

  /** Left to right: text between edits is copied, edited ranges are replaced. */
  function Rebuilt(v: Text, s: seq<Edit>, cursor: nat): Text
    requires cursor <= |v| && Ascending(s, cursor, |v|)
  {
    if s == [] then v[cursor..]
    else
      AscendingIsLater(s, cursor, |v|);
      assert s[0] in s;
      v[cursor..s[0].range.start] + s[0].replacement + Rebuilt(v, s[1..], s[0].range.end)
  }

  lemma RebuiltLater(v: Text, s: seq<Edit>, from: nat, cursor: nat)
    requires from <= cursor <= |v| && Ascending(s, cursor, |v|)
    ensures Ascending(s, from, |v|) && Rebuilt(v, s, from) == v[from..cursor] + Rebuilt(v, s, cursor)
  {
    AscendingIsLater(s, cursor, |v|);
    if s == [] {
      assert v[from..] == v[from..cursor] + v[cursor..];
    } else {
      assert s[0] in s;
      var e, a := s[0], s[0].range.start;
      var rest := Rebuilt(v, s[1..], e.range.end);
      assert v[from..a] == v[from..cursor] + v[cursor..a];
      assert Rebuilt(v, s, from) == v[from..a] + e.replacement + rest;
      assert Rebuilt(v, s, cursor) == v[cursor..a] + e.replacement + rest;
      Regroup(v[from..cursor], v[cursor..a], e.replacement, rest);
    }
  }

  lemma Regroup(a: Text, b: Text, c: Text, d: Text)
    ensures a + b + c + d == a + (b + c + d)
  {
  }

  lemma {:induction false} AscendingSuffix(s: seq<Edit>, from: nat, end: nat, i: nat)
    requires Ascending(s, from, end) && i <= |s|
    ensures Ascending(s[i..], if i == 0 then from else s[i - 1].range.end, end)
    decreases i
  {
    if i == 0 {
      assert s[0..] == s;
    } else {
      AscendingSuffix(s[1..], s[0].range.end, end, i - 1);
      assert s[1..][i - 1..] == s[i..];
    }
  }

  /** Replacing ranges from the last edit to the first rebuilds the text from left to right. */
  method ApplyEdits(v: Text, s: seq<Edit>) returns (output: Text)
    requires Ascending(s, 0, |v|)
    ensures output == Rebuilt(v, s, 0)
  {
    hide Ascending, Rebuilt;
    output := v;
    var i := |s|;
    NothingEdited(v);
    assert s[|s|..] == [];
    while i > 0
      invariant 0 <= i <= |s| && Ascending(s[i..], 0, |v|) && output == Rebuilt(v, s[i..], 0)
    {
      i := i - 1;
      OneEdit(v, s, i);
      var e := s[i];
      output := output[..e.range.start] + e.replacement + output[e.range.end..];
    }
    assert s[0..] == s;
  }

  lemma NothingEdited(v: Text)
    ensures Ascending([], 0, |v|) && Rebuilt(v, [], 0) == v
  {
  }

  lemma OneEdit(v: Text, s: seq<Edit>, i: nat)
    requires i < |s| && Ascending(s, 0, |v|)
    ensures Ascending(s[i..], 0, |v|) && Ascending(s[i + 1..], 0, |v|)
    ensures var e, rest := s[i], Rebuilt(v, s[i + 1..], 0);
      && e.range.end <= |rest|
      && Rebuilt(v, s[i..], 0) == rest[..e.range.start] + e.replacement + rest[e.range.end..]
  {
    hide Ascending, Rebuilt;
    var e := s[i];
    AscendingSuffix(s, 0, |v|, i);
    AscendingSuffix(s, 0, |v|, i + 1);
    var from := if i == 0 then 0 else s[i - 1].range.end;
    AscendingIsLater(s[i..], from, |v|);
    assert s[i..][0] == e && e in s[i..] && s[i..][1..] == s[i + 1..];
    RebuiltLater(v, s[i + 1..], 0, e.range.end);
    RebuiltLater(v, s[i..], 0, from);
    var after := Rebuilt(v, s[i + 1..], e.range.end);
    RebuiltStep(v, s[i..], from);
    Replaced(v, from, e.range.start, e.range.end, e.replacement, after);
  }

  lemma RebuiltStep(v: Text, s: seq<Edit>, from: nat)
    requires s != [] && from <= |v| && Ascending(s, from, |v|)
    ensures from <= s[0].range.start <= s[0].range.end <= |v| && Ascending(s[1..], s[0].range.end, |v|)
    ensures Rebuilt(v, s, from) == v[from..s[0].range.start] + s[0].replacement + Rebuilt(v, s[1..], s[0].range.end)
  {
    AscendingIsLater(s, from, |v|);
    assert s[0] in s;
  }

  lemma Replaced(v: Text, from: nat, start: nat, end: nat, replacement: Text, after: Text)
    requires from <= start <= end <= |v|
    ensures var rest := v[0..end] + after;
      && end <= |rest|
      && v[0..from] + (v[from..start] + replacement + after) == rest[..start] + replacement + rest[end..]
  {
    var rest := v[0..end] + after;
    assert rest[..start] == v[0..from] + v[from..start];
    assert rest[end..] == after;
  }

  // ---------------------------------------------------------------- what is not edited

  function Shift(s: seq<Edit>, at: nat): int {
    if s == [] then 0
    else
      (if s[0].range.end <= at then |s[0].replacement| - (s[0].range.end - s[0].range.start) else 0)
      + Shift(s[1..], at)
  }

  predicate Clear(s: seq<Edit>, r: TextRange) {
    forall x :: x in s ==> x.range.end <= r.start || r.end <= x.range.start
  }

  lemma {:induction false} ShiftNothing(s: seq<Edit>, at: nat)
    requires forall x :: x in s ==> at < x.range.end
    ensures Shift(s, at) == 0
    decreases |s|
  {
    if s != [] {
      assert s[0] in s;
      assert forall x :: x in s[1..] ==> x in s;
      ShiftNothing(s[1..], at);
    }
  }

  /** Text that no edit touches is found in the result, moved by the net length of the edits
      before it. */
  lemma {:induction false} ClearSurvives(v: Text, s: seq<Edit>, cursor: nat, r: TextRange)
    requires cursor <= r.start < r.end <= |v| && Ascending(s, cursor, |v|) && Clear(s, r)
    ensures var at := r.start - cursor + Shift(s, r.start);
      0 <= at && at + (r.end - r.start) <= |Rebuilt(v, s, cursor)|
        && Rebuilt(v, s, cursor)[at..at + (r.end - r.start)] == v[r.start..r.end]
    decreases |s|
  {
    hide Ascending, Rebuilt, Shift, Clear;
    if s == [] {
      NothingShifts(v, cursor, r.start);
      InHead(v, cursor, |v|, [], r);
      assert v[cursor..] == v[cursor..|v|] + [];
    } else {
      var e, rest := s[0], s[1..];
      FirstEdit(v, s, cursor, r);
      var before, tail := v[cursor..e.range.start], Rebuilt(v, rest, e.range.end);
      if e.range.end <= r.start {
        ClearSurvives(v, rest, e.range.end, r);
        InTail(before + e.replacement, tail, r.start - e.range.end + Shift(rest, r.start), r.end - r.start);
      } else {
        assert forall x :: x in s ==> x == e || x in rest;
        ShiftNothing(s, r.start);
        InHead(v, cursor, e.range.start, e.replacement + tail, r);
        assert before + e.replacement + tail == before + (e.replacement + tail);
      }
    }
  }

  lemma NothingShifts(v: Text, cursor: nat, at: nat)
    requires cursor <= |v|
    ensures Ascending([], cursor, |v|) && Rebuilt(v, [], cursor) == v[cursor..] && Shift([], at) == 0
  {
  }

  lemma InTail(head: Text, tail: Text, at: nat, n: nat)
    requires at + n <= |tail|
    ensures (head + tail)[|head| + at..|head| + at + n] == tail[at..at + n]
  {
  }

  lemma InHead(v: Text, from: nat, end: nat, tail: Text, r: TextRange)
    requires from <= r.start && r.end <= end <= |v|
    ensures (v[from..end] + tail)[r.start - from..r.end - from] == v[r.start..r.end]
  {
    forall j | 0 <= j < r.end - r.start
      ensures (v[from..end] + tail)[r.start - from..r.end - from][j] == v[r.start..r.end][j]
    {
      assert v[from..end][r.start - from + j] == v[r.start + j];
    }
  }

  lemma FirstEdit(v: Text, s: seq<Edit>, cursor: nat, r: TextRange)
    requires cursor <= |v| && s != [] && Ascending(s, cursor, |v|) && Clear(s, r)
    ensures var e, rest := s[0], s[1..];
      && cursor <= e.range.start && e.range.end <= |v| && Ascending(rest, e.range.end, |v|) && Clear(rest, r)
      && (e.range.end <= r.start || r.end <= e.range.start)
      && Rebuilt(v, s, cursor) == v[cursor..e.range.start] + e.replacement + Rebuilt(v, rest, e.range.end)
      && Shift(s, r.start) == (if e.range.end <= r.start then |e.replacement| - (e.range.end - e.range.start) else 0)
         + Shift(rest, r.start)
      && forall x :: x in rest ==> e.range.end <= x.range.start
  {
    AscendingIsLater(s, cursor, |v|);
    AscendingIsLater(s[1..], s[0].range.end, |v|);
    assert s[0] in s && forall x :: x in s[1..] ==> x in s;
  }
}
