/** Expansion of attribute references in a text. */
module Substitution {
  import opened Text

  /** The largest 32-bit count; adding to it saturates. */
  const MAX_COUNT := 0xFFFF_FFFF

  datatype ExpansionError = Undefined | Cycle | DepthLimitExceeded | SizeLimitExceeded

  datatype Limits = Limits(maxDepth: nat, maxBytes: nat)

  datatype Evaluated<+T> = Ok(value: T) | Err(error: ExpansionError)

  /** The text of a reference and how deeply it was itself expanded. */
  type Resolver = Text -> Evaluated<(Text, nat)>

  function Deeper(depth: nat): nat { if depth < MAX_COUNT then depth + 1 else MAX_COUNT }

  /** The end of what is read at the boundary `i`: an escaped brace, a closed reference or a
      character. A brace that is never closed ends at the end of the text. */
  function StepEnd(v: Text, i: nat): (r: nat)
    requires Valid(v) && i < |v| && Boundary(v, i)
    ensures i < r <= |v| && Boundary(v, r)
  {
    if EscapedBrace(v, i) then
      AsciiIsWhole(v, i + 1);
      i + 2
    else if v[i] == '{' then
      match NextUnit(v, i, '}')
      case None => |v|
      case Some(close) =>
        AsciiIsWhole(v, close);
        close + 1
    else Next(v, i)
  }

  predicate EscapedBrace(v: Text, i: nat) { i + 1 < |v| && v[i] == '\\' && v[i + 1] == '{' }

  /** Whether an unclosed brace opens at `i`. */
  predicate Unclosed(v: Text, i: nat)
    requires i < |v|
  {
    v[i] == '{' && NextUnit(v, i, '}').None?
  }

  /** The name of the reference at `i`, if one is there. */
  function NameAt(v: Text, i: nat): Option<Text>
    requires i < |v|
  {
    if v[i] != '{' then None
    else
      match NextUnit(v, i, '}')
      case None => None
      case Some(close) => if close == i + 1 then None else Some(v[i + 1..close])
  }

  /** What is read at `i` becomes: its expansion, and how deep that is. */
  function Piece(v: Text, i: nat, resolve: Resolver): Evaluated<(Text, nat)>
    requires Valid(v) && i < |v| && Boundary(v, i)
  {
    if EscapedBrace(v, i) then Ok(("{", 0))
    else
      match NameAt(v, i)
      case None => Ok((v[i..StepEnd(v, i)], 0))
      case Some(name) =>
        match resolve(name)
        case Err(e) => Err(e)
        case Ok((text, depth)) => Ok((text, Deeper(depth)))
  }

  /** Expands `v[i..]` after `output`. The size is not checked after an unclosed brace. */
  function Expand(v: Text, i: nat, output: Text, depth: nat, limits: Limits,
      resolve: Resolver): (r: Evaluated<(Text, nat)>)
    requires Valid(v) && i <= |v| && Boundary(v, i)
    decreases |v| - i
  {
    if i == |v| then Ok((output, depth))
    else if Unclosed(v, i) then Ok((output + v[i..], depth))
    else
      match Piece(v, i, resolve)
      case Err(e) => Err(e)
      case Ok((text, pieceDepth)) =>
        var deepest := Max(depth, pieceDepth);
        if NameAt(v, i).Some? && limits.maxDepth < deepest then Err(DepthLimitExceeded)
        else if limits.maxBytes < |output + text| then Err(SizeLimitExceeded)
        else Expand(v, StepEnd(v, i), output + text, deepest, limits, resolve)
  }

  function ExpandText(v: Text, limits: Limits, resolve: Resolver): Evaluated<(Text, nat)>
    requires Valid(v)
  {
    Expand(v, 0, [], 0, limits, resolve)
  }

  method ExpandAttributeText(v: Text, limits: Limits, resolve: Resolver) returns (r: Evaluated<(Text, nat)>)
    requires Valid(v)
    ensures r == ExpandText(v, limits, resolve)
  {
    hide Valid, NextUnit, Boundary;
    FirstBoundary(v);
    var output: Text := [];
    var depth: nat := 0;
    var cursor: nat := 0;
    while cursor < |v|
      invariant cursor <= |v| && Boundary(v, cursor)
      invariant ExpandText(v, limits, resolve) == Expand(v, cursor, output, depth, limits, resolve)
    {
      var next := StepEnd(v, cursor);
      if EscapedBrace(v, cursor) {
        output := output + "{";
      } else if v[cursor] == '{' {
        var close := NextUnit(v, cursor, '}');
        if close.None? {
          return Ok((output + v[cursor..], depth));
        }
        var name := v[cursor + 1..close.value];
        if name == [] {
          EmptyReference(v, cursor);
          output := output + "{}";
        } else {
          var resolved := resolve(name);
          if resolved.Err? {
            return Err(resolved.error);
          }
          output := output + resolved.value.0;
          depth := Max(depth, Deeper(resolved.value.1));
          if limits.maxDepth < depth {
            return Err(DepthLimitExceeded);
          }
        }
      } else {
        output := output + v[cursor..next];
      }
      if limits.maxBytes < |output| {
        return Err(SizeLimitExceeded);
      }
      cursor := next;
    }
    r := Ok((output, depth));
  }

  lemma EmptyReference(v: Text, i: nat)
    requires Valid(v) && i < |v| && Boundary(v, i) && v[i] == '{' && NextUnit(v, i, '}') == Some(i + 1)
    ensures StepEnd(v, i) == i + 2 && v[i..i + 2] == "{}"
  {
    hide Valid;
  }

  lemma FirstBoundary(v: Text)
    requires Valid(v)
    ensures Boundary(v, 0)
  {
  }

  // ---------------------------------------------------------------- size and depth

  /** Where the text holds a brace that is never closed, as the scan meets it. */
  function UnclosedFrom(v: Text, i: nat): (r: Option<nat>)
    requires Valid(v) && i <= |v| && Boundary(v, i)
    ensures r.Some? ==> i <= r.value < |v| && v[r.value] == '{'
    decreases |v| - i
  {
    if i == |v| then None else if Unclosed(v, i) then Some(i) else UnclosedFrom(v, StepEnd(v, i))
  }

  /** An expansion that succeeds is within the size limit apart from the text after an unclosed
      brace, which is copied; it is never deeper than the depth limit. */
  lemma {:induction false} ExpansionIsBounded(v: Text, i: nat, output: Text, depth: nat, limits: Limits,
      resolve: Resolver)
    requires Valid(v) && i <= |v| && Boundary(v, i) && |output| <= limits.maxBytes && depth <= limits.maxDepth
    ensures var r, tail := Expand(v, i, output, depth, limits, resolve), UnclosedFrom(v, i);
      r.Ok? ==>
        && r.value.1 <= limits.maxDepth
        && |r.value.0| <= limits.maxBytes + (if tail.Some? then |v| - tail.value else 0)
        && (tail.Some? ==>
             |v| - tail.value <= |r.value.0| && r.value.0[|r.value.0| - (|v| - tail.value)..] == v[tail.value..])
    decreases |v| - i
  {
    hide Valid, NextUnit, Boundary, StepEnd;
    if i < |v| && !Unclosed(v, i) && Piece(v, i, resolve).Ok? {
      var (text, pieceDepth) := Piece(v, i, resolve).value;
      var deepest := Max(depth, pieceDepth);
      PieceDepth(v, i, resolve);
      if !(NameAt(v, i).Some? && limits.maxDepth < deepest) && |output + text| <= limits.maxBytes {
        ExpansionIsBounded(v, StepEnd(v, i), output + text, deepest, limits, resolve);
      }
    }
  }

  lemma PieceDepth(v: Text, i: nat, resolve: Resolver)
    requires Valid(v) && i < |v| && Boundary(v, i)
    ensures var p := Piece(v, i, resolve); p.Ok? && NameAt(v, i).None? ==> p.value.1 == 0
  {
  }

  lemma {:induction false} NextUnitBefore(v: Text, i: nat, c: char, k: nat)
    requires k <= |v| && NextUnit(v, i, c).Some? && NextUnit(v, i, c).value < k
    ensures NextUnit(v[..k], i, c) == NextUnit(v, i, c)
    decreases |v| - i
  {
    if v[i] != c {
      NextUnitBefore(v, i + 1, c, k);
    }
  }

  /** What is read at `i` does not depend on the text after a later step. */
  lemma StepBefore(v: Text, i: nat, k: nat, resolve: Resolver)
    requires Valid(v) && i < k <= |v| && Boundary(v, i) && Boundary(v, k) && !Unclosed(v, i) && StepEnd(v, i) <= k
    ensures Valid(v[..k]) && Boundary(v[..k], i) && !Unclosed(v[..k], i) && StepEnd(v[..k], i) == StepEnd(v, i)
    ensures NameAt(v[..k], i) == NameAt(v, i) && Piece(v[..k], i, resolve) == Piece(v, i, resolve)
  {
    hide Valid;
    FirstBoundary(v);
    SliceIsValid(v, 0, k);
    assert v[0..k] == v[..k];
    if v[i] == '{' {
      NextUnitBefore(v, i, '}', k);
      var close := NextUnit(v, i, '}').value;
      assert v[..k][i + 1..close] == v[i + 1..close];
    }
    NextBefore(v, i, k);
    assert v[..k][i..StepEnd(v, i)] == v[i..StepEnd(v, i)];
  }

  lemma NextBefore(v: Text, i: nat, k: nat)
    requires i < k <= |v| && Valid(v) && Valid(v[..k]) && Boundary(v, i) && Boundary(v[..k], i)
    ensures Next(v[..k], i) == Next(v, i)
  {
  }

  lemma {:induction false} UnclosedIsLater(v: Text, i: nat)
    requires Valid(v) && i < |v| && Boundary(v, i) && !Unclosed(v, i) && UnclosedFrom(v, i).Some?
    ensures StepEnd(v, i) <= UnclosedFrom(v, i).value && Boundary(v, UnclosedFrom(v, i).value)
    decreases |v| - i
  {
    hide StepEnd;
    var next := StepEnd(v, i);
    if next < |v| && !Unclosed(v, next) {
      UnclosedIsLater(v, next);
    }
  }

  /** Before an unclosed brace a text expands as if it ended there; the rest is copied. */
  lemma {:induction false} TailIsCopied(v: Text, i: nat, k: nat, output: Text, depth: nat, limits: Limits,
      resolve: Resolver)
    requires Valid(v) && i <= k < |v| && Boundary(v, i) && UnclosedFrom(v, i) == Some(k)
    ensures Boundary(v, k) && Valid(v[..k]) && Boundary(v[..k], i)
    ensures var whole, before := Expand(v, i, output, depth, limits, resolve),
      Expand(v[..k], i, output, depth, limits, resolve);
      whole == if before.Err? then before else Ok((before.value.0 + v[k..], before.value.1))
    decreases |v| - i
  {
    hide Valid, Boundary, StepEnd, NextUnit, Piece, NameAt;
    if Unclosed(v, i) {
      FirstBoundary(v);
      SliceIsValid(v, 0, k);
      assert v[0..k] == v[..k];
    } else {
      UnclosedIsLater(v, i);
      StepBefore(v, i, k, resolve);
      var p := Piece(v, i, resolve);
      var (text, pieceDepth) := if p.Ok? then p.value else ([], 0);
      TailIsCopied(v, StepEnd(v, i), k, output + text, Max(depth, pieceDepth), limits, resolve);
    }
  }

  /** A successful expansion is over the size limit exactly when the text holds an unclosed brace
      and the expansion of what comes before it, with the rest copied, is too long. */
  lemma OverLimit(v: Text, limits: Limits, resolve: Resolver)
    requires Valid(v) && Boundary(v, 0) && ExpandText(v, limits, resolve).Ok?
    ensures UnclosedFrom(v, 0).Some? ==>
      Valid(v[..UnclosedFrom(v, 0).value]) && ExpandText(v[..UnclosedFrom(v, 0).value], limits, resolve).Ok?
    ensures limits.maxBytes < |ExpandText(v, limits, resolve).value.0|
       <==> UnclosedFrom(v, 0).Some?
            && limits.maxBytes < |ExpandText(v[..UnclosedFrom(v, 0).value], limits, resolve).value.0|
               + (|v| - UnclosedFrom(v, 0).value)
  {
    hide Expand, Valid, Boundary;
    ExpansionIsBounded(v, 0, [], 0, limits, resolve);
    var tail := UnclosedFrom(v, 0);
    if tail.Some? {
      TailIsCopied(v, 0, tail.value, [], 0, limits, resolve);
    }
  }

  /** Five bytes come out under a limit of two. */
  lemma UnclosedIsOverLimit(resolve: Resolver)
    ensures var v, limits := "{aaaa", Limits(0, 2);
      && Valid(v) && UnclosedFrom(v, 0) == Some(0)
      && ExpandText(v, limits, resolve) == Ok((v, 0)) && limits.maxBytes < |v|
  {
    var v := "{aaaa";
    forall i | 0 <= i < |v| ensures UnitOk(v, i) {
      assert v[i] < '\U{80}';
    }
    NextUnitIsFirst(v, 0, '}');
    assert forall i :: 0 <= i < |v| ==> v[i] != '}';
    assert Unclosed(v, 0);
    assert [] + v[0..] == v;
  }

  // ---------------------------------------------------------------- references

  datatype Reference = Reference(name: Text, open: nat, nameStart: nat, nameEnd: nat, close: nat)

  function ReferencesFrom(v: Text, i: nat): seq<Reference>
    requires Valid(v) && i <= |v| && Boundary(v, i)
    decreases |v| - i
  {
    if i == |v| || Unclosed(v, i) then []
    else
      var end := StepEnd(v, i);
      (if !EscapedBrace(v, i) && NameAt(v, i).Some? then
        [Reference(NameAt(v, i).value, i, i + 1, end - 1, end)] else [])
      + ReferencesFrom(v, end)
  }

  lemma ReferencesStep(v: Text, i: nat, done: seq<Reference>)
    requires Valid(v) && i < |v| && Boundary(v, i)
    ensures Unclosed(v, i) ==> done + ReferencesFrom(v, i) == done
    ensures !Unclosed(v, i) ==>
      var end := StepEnd(v, i);
      var found := if !EscapedBrace(v, i) && NameAt(v, i).Some? then
        [Reference(NameAt(v, i).value, i, i + 1, end - 1, end)] else [];
      done + ReferencesFrom(v, i) == done + found + ReferencesFrom(v, end)
  {
    hide Valid, StepEnd, NameAt, NextUnit;
    if !Unclosed(v, i) {
      var end := StepEnd(v, i);
      var found := if !EscapedBrace(v, i) && NameAt(v, i).Some? then
        [Reference(NameAt(v, i).value, i, i + 1, end - 1, end)] else [];
      assert done + (found + ReferencesFrom(v, end)) == done + found + ReferencesFrom(v, end);
    } else {
      assert done + [] == done;
    }
  }

  method ScanReferences(v: Text) returns (references: seq<Reference>)
    requires Valid(v)
    ensures Boundary(v, 0) && references == ReferencesFrom(v, 0)
  {
    hide Valid, NextUnit, Boundary, ReferencesFrom;
    FirstBoundary(v);
    references := [];
    assert [] + ReferencesFrom(v, 0) == ReferencesFrom(v, 0);
    var cursor: nat := 0;
    while cursor < |v|
      invariant cursor <= |v| && Boundary(v, cursor)
      invariant ReferencesFrom(v, 0) == references + ReferencesFrom(v, cursor)
    {
      var next := StepEnd(v, cursor);
      ReferencesStep(v, cursor, references);
      if !EscapedBrace(v, cursor) && v[cursor] == '{' {
        var close := NextUnit(v, cursor, '}');
        if close.None? {
          return;
        }
        var name := v[cursor + 1..close.value];
        if name != [] {
          references := references + [Reference(name, cursor, cursor + 1, close.value, close.value + 1)];
        }
      }
      assert references + [] == references;
      cursor := next;
    }
    ReferencesEnd(v, references);
  }

  lemma ReferencesEnd(v: Text, done: seq<Reference>)
    requires Valid(v)
    ensures done + ReferencesFrom(v, |v|) == done
  {
  }

  /** The names the expander asks for, in order, until it stops. */
  function Asked(v: Text, i: nat, output: Text, depth: nat, limits: Limits, resolve: Resolver): seq<Text>
    requires Valid(v) && i <= |v| && Boundary(v, i)
    decreases |v| - i
  {
    if i == |v| || Unclosed(v, i) then []
    else
      var asks := if !EscapedBrace(v, i) && NameAt(v, i).Some? then [NameAt(v, i).value] else [];
      match Piece(v, i, resolve)
      case Err(_) => asks
      case Ok((text, pieceDepth)) =>
        var deepest := Max(depth, pieceDepth);
        if (NameAt(v, i).Some? && limits.maxDepth < deepest) || limits.maxBytes < |output + text| then asks
        else asks + Asked(v, StepEnd(v, i), output + text, deepest, limits, resolve)
  }

  function Names(s: seq<Reference>): seq<Text> {
    if s == [] then [] else [s[0].name] + Names(s[1..])
  }

  lemma NamesAppend(a: seq<Reference>, b: seq<Reference>)
    requires |a| <= 1
    ensures Names(a + b) == Names(a) + Names(b)
  {
    if a == [] {
      assert a + b == b;
    } else {
      assert (a + b)[1..] == b;
    }
  }

  /** The scan lists, in order, the names the expander asks for: all of them when the expansion
      succeeds, otherwise those up to where it stops. */
  lemma {:induction false} ScanListsAsked(v: Text, i: nat, output: Text, depth: nat, limits: Limits, resolve: Resolver)
    requires Valid(v) && i <= |v| && Boundary(v, i)
    ensures var asked, listed := Asked(v, i, output, depth, limits, resolve), Names(ReferencesFrom(v, i));
      && asked <= listed
      && (Expand(v, i, output, depth, limits, resolve).Ok? ==> asked == listed)
    decreases |v| - i
  {
    hide Valid, NextUnit, Boundary, StepEnd, Piece, NameAt;
    if i < |v| && !Unclosed(v, i) {
      var end := StepEnd(v, i);
      var found := if !EscapedBrace(v, i) && NameAt(v, i).Some? then
        [Reference(NameAt(v, i).value, i, i + 1, end - 1, end)] else [];
      NamesAppend(found, ReferencesFrom(v, end));
      OneName(found);
      if Piece(v, i, resolve).Ok? {
        var (text, pieceDepth) := Piece(v, i, resolve).value;
        ScanListsAsked(v, end, output + text, Max(depth, pieceDepth), limits, resolve);
      }
    }
  }

  lemma OneName(s: seq<Reference>)
    requires |s| <= 1
    ensures Names(s) == if s == [] then [] else [s[0].name]
  {
  }
}
