/** A stable sort by pairs of numbers, such as the start and the end of a range. */
module Sorting {
  type Key = (nat, nat)

  predicate AtMost(a: Key, b: Key) {
    a.0 < b.0 || (a.0 == b.0 && a.1 <= b.1)
  }

  /** Puts `x` in front of the first element that is not before it. */
  function Insert<T>(x: T, s: seq<T>, key: T -> Key): seq<T> {
    if s == [] || AtMost(key(x), key(s[0])) then [x] + s else [s[0]] + Insert(x, s[1..], key)
  }

  function SortBy<T>(s: seq<T>, key: T -> Key): seq<T> {
    if s == [] then [] else Insert(s[0], SortBy(s[1..], key), key)
  }

  ghost predicate Ordered<T(!new)>(s: seq<T>, key: T -> Key) {
    forall i, j :: 0 <= i < j < |s| ==> AtMost(key(s[i]), key(s[j]))
  }

  lemma {:induction false} InsertHolds<T>(x: T, s: seq<T>, key: T -> Key)
    ensures multiset(Insert(x, s, key)) == multiset(s) + multiset{x}
    ensures |Insert(x, s, key)| == |s| + 1
    decreases |s|
  {
    if s != [] && !AtMost(key(x), key(s[0])) {
      InsertHolds(x, s[1..], key);
      assert s == [s[0]] + s[1..];
    }
  }

  lemma {:induction false} SortHolds<T>(s: seq<T>, key: T -> Key)
    ensures multiset(SortBy(s, key)) == multiset(s) && |SortBy(s, key)| == |s|
    ensures forall x :: x in SortBy(s, key) <==> x in s
    decreases |s|
  {
    if s != [] {
      SortHolds(s[1..], key);
      InsertHolds(s[0], SortBy(s[1..], key), key);
      assert s == [s[0]] + s[1..];
    }
    SameMembers(SortBy(s, key), s);
  }

  lemma SameMembers<T>(a: seq<T>, b: seq<T>)
    requires multiset(a) == multiset(b)
    ensures forall x :: x in a <==> x in b
  {
    assert forall x :: x in a <==> x in multiset(a);
    assert forall x :: x in b <==> x in multiset(b);
  }

  lemma {:induction false} InsertOrdered<T(!new)>(x: T, s: seq<T>, key: T -> Key)
    requires Ordered(s, key)
    ensures Ordered(Insert(x, s, key), key)
    decreases |s|
  {
    if s != [] && !AtMost(key(x), key(s[0])) {
      var rest := Insert(x, s[1..], key);
      InsertOrdered(x, s[1..], key);
      InsertHolds(x, s[1..], key);
      forall j | 0 <= j < |rest| ensures AtMost(key(s[0]), key(rest[j])) {
        assert rest[j] in multiset(s[1..]) + multiset{x};
        if rest[j] != x {
          assert rest[j] in s[1..];
        }
      }
    } else {
      assert forall j :: 0 <= j < |s| ==> AtMost(key(x), key(s[j]));
    }
  }

  lemma {:induction false} SortOrdered<T(!new)>(s: seq<T>, key: T -> Key)
    ensures Ordered(SortBy(s, key), key)
    decreases |s|
  {
    if s != [] {
      SortOrdered(s[1..], key);
      InsertOrdered(s[0], SortBy(s[1..], key), key);
    }
  }
}
