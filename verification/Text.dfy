/** Offsets, ranges and UTF-8 text, shared by every component of the model.

    A text is the sequence of its UTF-8 code units. Each unit is written as the
    `char` whose code is the value of the byte, so an ASCII literal such as "]]"
    stands for itself and a non-ASCII character is two to four units at or above
    0x80. Every offset is therefore a byte offset, as in the engine. */
module Text {
  datatype Option<+T> = None | Some(value: T)

  datatype RawRange = Range(start: nat, end: nat)

  /** A half-open byte range whose ends are in order. Building one from reversed
      ends is the failure the engine turns into an error or a panic. */
  type TextRange = r: RawRange | r.start <= r.end witness Range(0, 0)

  type Text = seq<char>

  predicate Continuation(c: char) {
    '\U{80}' <= c < '\U{C0}'
  }

  /** Number of code units announced by a leading unit; 0 for a unit that leads nothing. */
  function CharLen(c: char): nat {
    if c < '\U{80}' then 1
    else if '\U{C2}' <= c < '\U{E0}' then 2
    else if '\U{E0}' <= c < '\U{F0}' then 3
    else if '\U{F0}' <= c < '\U{F5}' then 4
    else 0
  }

  /** Whether `i` is a character boundary. */
  predicate Boundary(v: Text, i: int) {
    i == |v| || (0 <= i < |v| && !Continuation(v[i]))
  }

  predicate UnitOk(v: Text, i: int)
    requires 0 <= i < |v|
  {
    Continuation(v[i]) ||
    var n := CharLen(v[i]);
    && 0 < n
    && i + n <= |v|
    && (forall j :: i < j < i + n ==> Continuation(v[j]))
    && Boundary(v, i + n)
  }

  /** Well-formed UTF-8, up to the value of the characters: every leading unit is
      followed by exactly the continuation units it announces. */
  predicate Valid(v: Text) {
    && Boundary(v, 0)
    && forall i {:trigger UnitOk(v, i)} :: 0 <= i < |v| ==> UnitOk(v, i)
  }

  /** The boundary that follows the character at `i`. */
  function Next(v: Text, i: nat): (r: nat)
    requires Valid(v) && i < |v| && Boundary(v, i)
    ensures i < r <= |v| && r <= i + 4 && Boundary(v, r)
    ensures v[i] < '\U{80}' ==> r == i + 1
  {
    assert UnitOk(v, i);
    i + CharLen(v[i])
  }

  /** The boundary of the character that ends at `i`. */
  function Previous(v: Text, i: nat): (r: nat)
    requires Valid(v) && 0 < i <= |v|
    ensures r < i && Boundary(v, r)
  {
    if i == 1 || !Continuation(v[i - 1]) then i - 1 else Previous(v, i - 1)
  }

  lemma NextIsNext(v: Text, i: nat)
    requires Valid(v) && i < |v| && Boundary(v, i)
    ensures forall j :: i < j < Next(v, i) ==> Continuation(v[j])
  {
    assert UnitOk(v, i);
  }

  lemma {:induction false} PreviousIsPrevious(v: Text, i: nat)
    requires Valid(v) && 0 < i <= |v|
    ensures forall j :: Previous(v, i) < j < i ==> Continuation(v[j])
    ensures Boundary(v, i) ==> Next(v, Previous(v, i)) == i
  {
    if i != 1 && Continuation(v[i - 1]) {
      PreviousIsPrevious(v, i - 1);
    }
    assert UnitOk(v, Previous(v, i));
  }

  /** An ASCII unit is a whole character. */
  lemma AsciiIsWhole(v: Text, i: nat)
    requires Valid(v) && i < |v| && v[i] < '\U{80}'
    ensures Boundary(v, i) && Boundary(v, i + 1)
  {
    assert UnitOk(v, i);
  }

  /** Cutting at boundaries keeps well-formedness, and the boundaries inside the
      piece are the boundaries of the whole. */
  lemma SliceIsValid(v: Text, a: nat, b: nat)
    requires Valid(v) && a <= b <= |v| && Boundary(v, a) && Boundary(v, b)
    ensures Valid(v[a..b])
    ensures forall i :: 0 <= i <= b - a ==> (Boundary(v[a..b], i) <==> Boundary(v, a + i))
  {
    var w := v[a..b];
    forall i | 0 <= i < |w| ensures UnitOk(w, i) {
      assert UnitOk(v, a + i);
    }
  }

  lemma SliceOfSlice(v: Text, a: nat, b: nat, c: nat, d: nat)
    requires a <= b <= |v| && c <= d <= b - a
    ensures v[a..b][c..d] == v[a + c..a + d]
  {
    assert forall j :: 0 <= j < d - c ==> v[a..b][c..d][j] == v[a + c..a + d][j];
  }

  /** Whether `p` occurs in `v` at offset `i`. */
  predicate StartsWith(v: Text, i: nat, p: string) {
    i + |p| <= |v| && v[i..i + |p|] == p
  }

  /** The first occurrence of `p` at or after `i`. */
  function Find(v: Text, i: nat, p: string): (r: Option<nat>)
    ensures r.Some? ==> i <= r.value && StartsWith(v, r.value, p)
    decreases |v| - i
  {
    if |v| < i + |p| then None
    else if StartsWith(v, i, p) then Some(i)
    else Find(v, i + 1, p)
  }

  lemma {:induction false} FindIsFirst(v: Text, i: nat, p: string)
    ensures var r := Find(v, i, p);
      forall j: nat :: i <= j && (r.None? || j < r.value) ==> !StartsWith(v, j, p)
    decreases |v| - i
  {
    if i + |p| <= |v| && !StartsWith(v, i, p) {
      FindIsFirst(v, i + 1, p);
    }
  }

  /** The first occurrence of the unit `c` at or after `i`. */
  function NextUnit(v: Text, i: nat, c: char): (r: Option<nat>)
    ensures r.Some? ==> i <= r.value < |v| && v[r.value] == c
    decreases |v| - i
  {
    if |v| <= i then None
    else if v[i] == c then Some(i)
    else NextUnit(v, i + 1, c)
  }

  lemma {:induction false} NextUnitIsFirst(v: Text, i: nat, c: char)
    ensures var r := NextUnit(v, i, c);
      forall j :: i <= j < (if r.Some? then r.value else |v|) ==> v[j] != c
    decreases |v| - i
  {
    if i < |v| && v[i] != c {
      NextUnitIsFirst(v, i + 1, c);
    }
  }

  /** The ASCII lower-case form of a unit. */
  function Lower(c: char): char {
    if 'A' <= c <= 'Z' then (c as int + 32) as char else c
  }

  function Max(a: int, b: int): int { if a < b then b else a }

  function Min(a: int, b: int): int { if a < b then a else b }
}
