/** What a text expands to, read off the parts it is written in. */
module Templates {
  import opened Text
  import opened Substitution

  /** Text without an opening brace, `\{`, `{}`, or a reference `{name}`. */
  datatype Part = Plain(text: Text) | EscapedOpen | EmptyBraces | Named(name: Text)

  predicate PartOk(p: Part) {
    match p
    case Plain(text) => text != [] && Valid(text) && '{' !in text
    case Named(name) => name != [] && '}' !in name
    case _ => true
  }

  /** How a part is written. */
  function Written(p: Part): Text {
    match p
    case Plain(text) => text
    case EscapedOpen => "\\{"
    case EmptyBraces => "{}"
    case Named(name) => "{" + name + "}"
  }

  function Spelled(parts: seq<Part>): Text {
    if parts == [] then [] else Written(parts[0]) + Spelled(parts[1..])
  }

  /** Parts, then a tail that an unclosed brace opens. A backslash that belongs to plain text is not
      followed by a brace. */
  predicate WellFormed(parts: seq<Part>, tail: Text) {
    if parts == [] then tail == [] || (tail[0] == '{' && '}' !in tail)
    else
      && PartOk(parts[0])
      && (parts[0].Plain? && parts[0].text != [] && parts[0].text[|parts[0].text| - 1] == '\\' ==>
            !OpensBrace(Spelled(parts[1..]) + tail))
      && WellFormed(parts[1..], tail)
  }

  predicate OpensBrace(v: Text) { v != [] && v[0] == '{' }

  // ---------------------------------------------------------------- what parts become

  /** The text a part becomes; a reference that fails becomes nothing. */
  function ValueOf(p: Part, resolve: Resolver): Text {
    match p
    case Plain(text) => text
    case EscapedOpen => "{"
    case EmptyBraces => "{}"
    case Named(name) => match resolve(name) case Ok((text, _)) => text case Err(_) => []
  }

  function Value(parts: seq<Part>, resolve: Resolver): Text {
    if parts == [] then [] else ValueOf(parts[0], resolve) + Value(parts[1..], resolve)
  }

  /** A reference is one deeper than its own expansion. */
  function DepthOf(p: Part, resolve: Resolver): nat {
    if p.Named? && resolve(p.name).Ok? then Deeper(resolve(p.name).value.1) else 0
  }

  function Deepest(parts: seq<Part>, resolve: Resolver): nat {
    if parts == [] then 0 else Max(DepthOf(parts[0], resolve), Deepest(parts[1..], resolve))
  }

  predicate Resolves(p: Part, resolve: Resolver) { p.Named? ==> resolve(p.name).Ok? }

  /** Every reference has a text, none is too deep, and the texts together are not too long. */
  predicate Fits(parts: seq<Part>, limits: Limits, resolve: Resolver) {
    && (forall p :: p in parts ==> Resolves(p, resolve))
    && Deepest(parts, resolve) <= limits.maxDepth
    && |Value(parts, resolve)| <= limits.maxBytes
  }

  /** Why a part cannot follow parts that fit. */
  function Reason(p: Part, limits: Limits, resolve: Resolver): ExpansionError {
    if p.Named? && resolve(p.name).Err? then resolve(p.name).error
    else if limits.maxDepth < DepthOf(p, resolve) then DepthLimitExceeded
    else SizeLimitExceeded
  }

  // ---------------------------------------------------------------- one part

  /** The expansion from `end` on after one more part, or the reason why there is none. */
  function After(v: Text, end: nat, p: Part, output: Text, depth: nat, limits: Limits, resolve: Resolver)
      : Evaluated<(Text, nat)>
    requires Valid(v) && end <= |v| && Boundary(v, end)
  {
    var deepest := Max(depth, DepthOf(p, resolve));
    if !Resolves(p, resolve) || limits.maxDepth < deepest || limits.maxBytes < |output + ValueOf(p, resolve)| then
      Err(Reason(p, limits, resolve))
    else Expand(v, end, output + ValueOf(p, resolve), deepest, limits, resolve)
  }

  /** The part stands at `i`, and what follows does not make its last backslash an escape. */
  predicate StandsAt(v: Text, i: nat, p: Part) {
    && PartOk(p) && i + |Written(p)| <= |v| && v[i..i + |Written(p)|] == Written(p)
    && (p.Plain? && p.text[|p.text| - 1] == '\\' ==> !OpensBrace(v[i + |p.text|..]))
  }

  lemma UnitsOf(v: Text, i: nat, p: Part)
    requires StandsAt(v, i, p)
    ensures forall j :: 0 <= j < |Written(p)| ==> v[i + j] == Written(p)[j]
  {
    forall j | 0 <= j < |Written(p)| ensures v[i + j] == Written(p)[j] {
      assert v[i..i + |Written(p)|][j] == v[i + j];
    }
  }

  lemma {:induction false} NextUnitIs(v: Text, i: nat, k: nat, c: char)
    requires i <= k < |v| && v[k] == c && forall j :: i <= j < k ==> v[j] != c
    ensures NextUnit(v, i, c) == Some(k)
    decreases k - i
  {
    if i < k {
      NextUnitIs(v, i + 1, k, c);
    }
  }

  /** Where a part that is no plain text ends, and the reference it is. */
  lemma BraceStands(v: Text, i: nat, p: Part)
    requires Valid(v) && StandsAt(v, i, p) && !p.Plain?
    ensures i < |v| && v[i] < '\U{80}' && Boundary(v, i) && StepEnd(v, i) == i + |Written(p)|
      && Boundary(v, StepEnd(v, i))
    ensures EscapedBrace(v, i) <==> p.EscapedOpen?
    ensures !Unclosed(v, i) && NameAt(v, i) == (if p.Named? then Some(p.name) else None)
  {
    hide Valid;
    UnitsOf(v, i, p);
    AsciiIsWhole(v, i);
    if p.EmptyBraces? {
      assert v[i] == '{' && v[i + 1] == '}';
      NextUnitIs(v, i, i + 1, '}');
    } else if p.Named? {
      var close := i + 1 + |p.name|;
      assert v[i] == '{' && v[close] == '}';
      forall j | i <= j < close ensures v[j] != '}' {
        if i < j {
          assert v[i + (j - i)] == Written(p)[j - i] == p.name[j - i - 1];
        }
      }
      NextUnitIs(v, i, close, '}');
      SliceOfSlice(v, i, close + 1, 1, close - i);
      assert Written(p)[1..close - i] == p.name;
    } else {
      assert v[i] == '\\' && v[i + 1] == '{';
    }
  }

  lemma BraceExpands(v: Text, i: nat, p: Part, output: Text, depth: nat, limits: Limits, resolve: Resolver)
    requires Valid(v) && StandsAt(v, i, p) && !p.Plain? && depth <= limits.maxDepth
    ensures Boundary(v, i) && Boundary(v, i + |Written(p)|)
    ensures Expand(v, i, output, depth, limits, resolve)
      == After(v, i + |Written(p)|, p, output, depth, limits, resolve)
  {
    hide Valid, NextUnit, StepEnd, NameAt, Unclosed, EscapedBrace;
    BraceStands(v, i, p);
    if p.EmptyBraces? {
      assert v[i..StepEnd(v, i)] == "{}";
    }
  }

  lemma {:induction false} PlainEnds(v: Text, i: nat, p: Part)
    requires Valid(v) && StandsAt(v, i, p) && p.Plain? && Boundary(v, i)
    ensures i + |p.text| <= |v| && Boundary(v, i + |p.text|)
    decreases |p.text|
  {
    hide Valid;
    var n := PlainStep(v, i, p);
    if n < |p.text| {
      RestStands(v, i, p, n);
      PlainEnds(v, i + n, Plain(p.text[n..]));
    }
  }

  /** Plain text is copied character by character. */
  lemma {:induction false} PlainExpands(v: Text, i: nat, p: Part, output: Text, depth: nat, limits: Limits,
      resolve: Resolver)
    requires Valid(v) && StandsAt(v, i, p) && p.Plain? && Boundary(v, i)
    requires depth <= limits.maxDepth && |output| <= limits.maxBytes
    ensures Boundary(v, i + |p.text|)
    ensures Expand(v, i, output, depth, limits, resolve) == After(v, i + |p.text|, p, output, depth, limits, resolve)
    decreases |p.text|
  {
    hide Valid, StandsAt, Expand;
    PlainEnds(v, i, p);
    var n := PlainStep(v, i, p);
    var now := output + p.text[..n];
    OneCharacter(v, i, n, output, depth, limits, resolve);
    assert v[i..i + n] == p.text[..n] by { StartIs(v, i, p, n); }
    assert now + p.text[n..] == output + p.text;
    if n < |p.text| {
      RestStands(v, i, p, n);
      if |now| <= limits.maxBytes {
        PlainExpands(v, i + n, Plain(p.text[n..]), now, depth, limits, resolve);
      }
    } else {
      assert p.text[..n] == p.text;
    }
  }

  lemma StartIs(v: Text, i: nat, p: Part, n: nat)
    requires StandsAt(v, i, p) && p.Plain? && n <= |p.text|
    ensures i + n <= |v| && v[i..i + n] == p.text[..n]
  {
    SliceOfSlice(v, i, i + |p.text|, 0, n);
  }

  lemma OneCharacter(v: Text, i: nat, n: nat, output: Text, depth: nat, limits: Limits, resolve: Resolver)
    requires Valid(v) && i < i + n <= |v| && Boundary(v, i) && Boundary(v, i + n) && StepEnd(v, i) == i + n
    requires !EscapedBrace(v, i) && !Unclosed(v, i) && NameAt(v, i).None?
    ensures Expand(v, i, output, depth, limits, resolve)
      == if limits.maxBytes < |output + v[i..i + n]| then Err(SizeLimitExceeded)
         else Expand(v, i + n, output + v[i..i + n], depth, limits, resolve)
  {
    hide Valid, StepEnd, NameAt, Unclosed, EscapedBrace, Boundary;
  }

  /** The first character of plain text. */
  lemma PlainStep(v: Text, i: nat, p: Part) returns (n: nat)
    requires Valid(v) && StandsAt(v, i, p) && p.Plain? && Boundary(v, i)
    ensures 0 < n <= |p.text| && StepEnd(v, i) == i + n && Boundary(v, i + n) && Boundary(p.text, n)
    ensures !EscapedBrace(v, i) && !Unclosed(v, i) && NameAt(v, i).None? && v[i] != '{'
  {
    UnitsOf(v, i, p);
    assert UnitOk(p.text, 0) && UnitOk(v, i);
    n := Next(p.text, 0);
    assert v[i] == p.text[0];
    assert |p.text| > 1 ==> v[i + 1] == p.text[1];
  }

  lemma RestStands(v: Text, i: nat, p: Part, n: nat)
    requires Valid(v) && StandsAt(v, i, p) && p.Plain? && n < |p.text| && Boundary(p.text, n)
    ensures StandsAt(v, i + n, Plain(p.text[n..]))
  {
    hide Boundary;
    SliceIsValid(p.text, n, |p.text|);
    assert p.text[n..|p.text|] == p.text[n..];
    SliceOfSlice(v, i, i + |p.text|, n, |p.text|);
    assert v[i..i + |p.text|][n..|p.text|] == p.text[n..];
  }

  /** Any part, where it stands. */
  lemma PartExpands(v: Text, i: nat, p: Part, output: Text, depth: nat, limits: Limits, resolve: Resolver)
    requires Valid(v) && StandsAt(v, i, p) && Boundary(v, i)
    requires depth <= limits.maxDepth && |output| <= limits.maxBytes
    ensures i + |Written(p)| <= |v| && Boundary(v, i + |Written(p)|)
    ensures Expand(v, i, output, depth, limits, resolve)
      == After(v, i + |Written(p)|, p, output, depth, limits, resolve)
  {
    hide Valid, Expand, After;
    if p.Plain? {
      PlainExpands(v, i, p, output, depth, limits, resolve);
    } else {
      BraceExpands(v, i, p, output, depth, limits, resolve);
    }
  }

  // ---------------------------------------------------------------- all parts

  /** From `i` on the text is written as these parts and this tail. */
  predicate Reads(v: Text, i: nat, parts: seq<Part>, tail: Text) {
    i <= |v| && v[i..] == Spelled(parts) + tail && WellFormed(parts, tail)
  }

  lemma ReadsPart(v: Text, i: nat, parts: seq<Part>, tail: Text)
    requires Reads(v, i, parts, tail) && parts != []
    ensures StandsAt(v, i, parts[0]) && Reads(v, i + |Written(parts[0])|, parts[1..], tail)
  {
    var p, rest := parts[0], Spelled(parts[1..]) + tail;
    var n := |Written(p)|;
    assert v[i..] == Written(p) + rest;
    assert v[i..][..n] == Written(p) && v[i..][n..] == rest;
    SliceOfSlice(v, i, |v|, 0, n);
    SliceOfSlice(v, i, |v|, n, |v| - i);
  }

  /** What is left when no part is. */
  lemma ReadsTail(v: Text, i: nat, tail: Text, output: Text, depth: nat, limits: Limits, resolve: Resolver)
    requires Valid(v) && Boundary(v, i) && Reads(v, i, [], tail)
    ensures Expand(v, i, output, depth, limits, resolve) == Ok((output + tail, depth))
    ensures ReferencesFrom(v, i) == []
  {
    hide Valid;
    assert v[i..] == tail;
    if tail == [] {
      assert output + [] == output;
    } else {
      assert v[i] == tail[0];
      NextUnitIsFirst(v, i, '}');
      assert forall j :: i <= j < |v| ==> v[j] == tail[j - i];
      assert Unclosed(v, i);
    }
  }

  /** The parts that fit after what has been put out already. */
  predicate FitAfter(parts: seq<Part>, output: Text, depth: nat, limits: Limits, resolve: Resolver) {
    && (forall p :: p in parts ==> Resolves(p, resolve))
    && Max(depth, Deepest(parts, resolve)) <= limits.maxDepth
    && |output| + |Value(parts, resolve)| <= limits.maxBytes
  }

  /** The reason why the first part that does not fit does not. */
  function FirstReason(parts: seq<Part>, output: Text, depth: nat, limits: Limits, resolve: Resolver): ExpansionError {
    if parts == [] then SizeLimitExceeded
    else if !FitAfter(parts[..1], output, depth, limits, resolve) then Reason(parts[0], limits, resolve)
    else FirstReason(parts[1..], output + ValueOf(parts[0], resolve), Max(depth, DepthOf(parts[0], resolve)),
      limits, resolve)
  }

  lemma OneFits(parts: seq<Part>, output: Text, depth: nat, limits: Limits, resolve: Resolver)
    requires parts != []
    ensures var p := parts[0]; var now, deepest := output + ValueOf(p, resolve), Max(depth, DepthOf(p, resolve));
      && (FitAfter(parts[..1], output, depth, limits, resolve) <==>
            Resolves(p, resolve) && deepest <= limits.maxDepth && |now| <= limits.maxBytes)
      && (FitAfter(parts, output, depth, limits, resolve) <==>
            FitAfter(parts[..1], output, depth, limits, resolve) && FitAfter(parts[1..], now, deepest, limits, resolve))
  {
    var p := parts[0];
    assert parts[..1] == [p] && [p][1..] == [];
    assert Deepest([], resolve) == 0 && Value([], resolve) == [];
    assert forall x :: x in parts <==> x == p || x in parts[1..];
  }

  /** Expanding from a place on puts out the texts of the parts read there, as long as they fit. */
  lemma {:induction false} PartsExpand(v: Text, i: nat, parts: seq<Part>, tail: Text, output: Text, depth: nat,
      limits: Limits, resolve: Resolver)
    requires Valid(v) && Boundary(v, i) && Reads(v, i, parts, tail)
    requires depth <= limits.maxDepth && |output| <= limits.maxBytes
    ensures Expand(v, i, output, depth, limits, resolve)
      == if FitAfter(parts, output, depth, limits, resolve) then
           Ok((output + Value(parts, resolve) + tail, Max(depth, Deepest(parts, resolve))))
         else Err(FirstReason(parts, output, depth, limits, resolve))
    decreases |parts|
  {
    hide Valid, Expand, Reads, WellFormed, FitAfter, StandsAt, Reason, Resolves, DepthOf, ValueOf;
    if parts == [] {
      ReadsTail(v, i, tail, output, depth, limits, resolve);
      assert FitAfter(parts, output, depth, limits, resolve) by { NothingFits(output, depth, limits, resolve); }
      assert output + [] == output;
    } else {
      var p := parts[0];
      var end, now, deepest := i + |Written(p)|, output + ValueOf(p, resolve), Max(depth, DepthOf(p, resolve));
      ReadsPart(v, i, parts, tail);
      PartExpands(v, i, p, output, depth, limits, resolve);
      OneFits(parts, output, depth, limits, resolve);
      if FitAfter(parts[..1], output, depth, limits, resolve) {
        PartsExpand(v, end, parts[1..], tail, now, deepest, limits, resolve);
        assert now + Value(parts[1..], resolve) + tail == output + Value(parts, resolve) + tail;
      }
    }
  }

  lemma NothingFits(output: Text, depth: nat, limits: Limits, resolve: Resolver)
    requires depth <= limits.maxDepth && |output| <= limits.maxBytes
    ensures FitAfter([], output, depth, limits, resolve)
  {
  }

  // ---------------------------------------------------------------- the theorems

  /** A text expands exactly when every reference in it has a text, none is too deep and the result,
      up to an unclosed brace, is not too long. Then each reference is replaced by its text and each
      `\{` by a brace, everything else is copied, and the depth is that of the deepest reference. */
  lemma ExpandsToValue(parts: seq<Part>, tail: Text, limits: Limits, resolve: Resolver)
    requires WellFormed(parts, tail) && Valid(Spelled(parts) + tail)
    ensures var r := ExpandText(Spelled(parts) + tail, limits, resolve);
      r == if Fits(parts, limits, resolve) then Ok((Value(parts, resolve) + tail, Deepest(parts, resolve)))
           else Err(FirstReason(parts, [], 0, limits, resolve))
  {
    hide Valid, Expand, WellFormed, Fits, FitAfter, Value, Deepest, Spelled, FirstReason;
    var v := Spelled(parts) + tail;
    FirstBoundary(v);
    assert v[0..] == v;
    PartsExpand(v, 0, parts, tail, [], 0, limits, resolve);
    FitsIs(parts, limits, resolve);
    assert [] + Value(parts, resolve) + tail == Value(parts, resolve) + tail;
  }

  lemma FitsIs(parts: seq<Part>, limits: Limits, resolve: Resolver)
    ensures Fits(parts, limits, resolve) <==> FitAfter(parts, [], 0, limits, resolve)
  {
    hide Value, Deepest, Resolves;
  }

  /** The references of the parts, at their places. */
  function ReferencesOf(parts: seq<Part>, at: nat): seq<Reference> {
    if parts == [] then []
    else
      var end := at + |Written(parts[0])|;
      (if parts[0].Named? then [Reference(parts[0].name, at, at + 1, end - 1, end)] else [])
        + ReferencesOf(parts[1..], end)
  }

  lemma {:induction false} PlainHasNone(v: Text, i: nat, p: Part)
    requires Valid(v) && StandsAt(v, i, p) && p.Plain? && Boundary(v, i)
    ensures i + |p.text| <= |v| && Boundary(v, i + |p.text|) && ReferencesFrom(v, i) == ReferencesFrom(v, i + |p.text|)
    decreases |p.text|
  {
    hide Valid, StandsAt, ReferencesFrom, StepEnd, NameAt, Unclosed, EscapedBrace;
    PlainEnds(v, i, p);
    var n := PlainStep(v, i, p);
    NoReference(v, i);
    if n < |p.text| {
      RestStands(v, i, p, n);
      PlainHasNone(v, i + n, Plain(p.text[n..]));
    }
  }

  lemma BraceRefers(v: Text, i: nat, p: Part)
    requires Valid(v) && StandsAt(v, i, p) && !p.Plain?
    ensures i + |Written(p)| <= |v| && Boundary(v, i) && Boundary(v, i + |Written(p)|)
    ensures var end := i + |Written(p)|;
      ReferencesFrom(v, i)
        == (if p.Named? then [Reference(p.name, i, i + 1, end - 1, end)] else []) + ReferencesFrom(v, end)
  {
    hide Valid, StandsAt, NameAt, StepEnd, Unclosed, EscapedBrace, Written;
    BraceStands(v, i, p);
  }

  lemma NoReference(v: Text, i: nat)
    requires Valid(v) && i < |v| && Boundary(v, i) && !Unclosed(v, i) && NameAt(v, i).None?
    ensures ReferencesFrom(v, i) == ReferencesFrom(v, StepEnd(v, i))
  {
    hide Valid, StepEnd, NameAt, Unclosed, EscapedBrace;
    var rest := ReferencesFrom(v, StepEnd(v, i));
    assert [] + rest == rest;
  }

  lemma {:induction false} PartsRefer(v: Text, i: nat, parts: seq<Part>, tail: Text)
    requires Valid(v) && Boundary(v, i) && Reads(v, i, parts, tail)
    ensures ReferencesFrom(v, i) == ReferencesOf(parts, i)
    decreases |parts|
  {
    hide Valid, Reads, WellFormed, StandsAt, ReferencesFrom, ReferencesOf, Written;
    if parts == [] {
      ReadsTail(v, i, tail, [], 0, Limits(0, 0), name => Err(Undefined));
      NothingReferred(i);
    } else {
      var p := parts[0];
      ReadsPart(v, i, parts, tail);
      ReferredFirst(parts, i);
      if p.Plain? {
        PlainHasNone(v, i, p);
      } else {
        BraceRefers(v, i, p);
      }
      PartsRefer(v, i + |Written(p)|, parts[1..], tail);
    }
  }

  lemma NothingReferred(at: nat)
    ensures ReferencesOf([], at) == []
  {
  }

  lemma ReferredFirst(parts: seq<Part>, at: nat)
    requires parts != []
    ensures var p, end := parts[0], at + |Written(parts[0])|;
      && (p.Plain? ==> Written(p) == p.text && ReferencesOf(parts, at) == ReferencesOf(parts[1..], end))
      && (!p.Plain? ==> ReferencesOf(parts, at)
                        == (if p.Named? then [Reference(p.name, at, at + 1, end - 1, end)] else [])
                           + ReferencesOf(parts[1..], end))
  {
    var rest := ReferencesOf(parts[1..], at + |Written(parts[0])|);
    assert [] + rest == rest;
  }

  /** The scan lists exactly the references in the parts. */
  lemma ScanFindsParts(parts: seq<Part>, tail: Text)
    requires WellFormed(parts, tail) && Valid(Spelled(parts) + tail)
    ensures Boundary(Spelled(parts) + tail, 0) && ReferencesFrom(Spelled(parts) + tail, 0) == ReferencesOf(parts, 0)
  {
    hide Valid, WellFormed, ReferencesFrom;
    var v := Spelled(parts) + tail;
    FirstBoundary(v);
    assert v[0..] == v;
    PartsRefer(v, 0, parts, tail);
  }

  /** Every text is written in parts. */
  lemma {:induction false} HasParts(v: Text, i: nat) returns (parts: seq<Part>, tail: Text)
    requires Valid(v) && i <= |v| && Boundary(v, i)
    ensures Reads(v, i, parts, tail)
    decreases |v| - i
  {
    hide Valid, StepEnd, Reads, PartOk, OpensBrace;
    if i == |v| {
      parts, tail := [], [];
      TailReads(v, i);
    } else if Unclosed(v, i) {
      parts, tail := [], v[i..];
      NextUnitIsFirst(v, i, '}');
      TailReads(v, i);
    } else {
      var p := PartAt(v, i);
      var rest: seq<Part>;
      rest, tail := HasParts(v, StepEnd(v, i));
      parts := [p] + rest;
      PartReads(v, i, StepEnd(v, i), p, rest, tail);
    }
  }

  lemma TailReads(v: Text, i: nat)
    requires i <= |v| && (i < |v| ==> v[i] == '{') && forall j :: i <= j < |v| ==> v[j] != '}'
    ensures Reads(v, i, [], v[i..])
  {
    assert [] + v[i..] == v[i..];
  }

  lemma PartReads(v: Text, i: nat, end: nat, p: Part, rest: seq<Part>, tail: Text)
    requires i < end <= |v| && PartOk(p) && Written(p) == v[i..end] && Reads(v, end, rest, tail)
    requires p.Plain? && p.text[|p.text| - 1] == '\\' ==> !OpensBrace(v[end..])
    ensures Reads(v, i, [p] + rest, tail)
  {
    hide OpensBrace, PartOk;
    var parts := [p] + rest;
    assert parts[1..] == rest;
    assert v[i..] == v[i..end] + v[end..];
    assert Written(p) + (Spelled(rest) + tail) == Spelled(parts) + tail;
  }

  lemma PartAt(v: Text, i: nat) returns (p: Part)
    requires Valid(v) && i < |v| && Boundary(v, i) && !Unclosed(v, i)
    ensures PartOk(p) && Written(p) == v[i..StepEnd(v, i)]
    ensures p.Plain? && p.text[|p.text| - 1] == '\\' ==> !OpensBrace(v[StepEnd(v, i)..])
  {
    hide Valid;
    var end := StepEnd(v, i);
    if EscapedBrace(v, i) {
      p := EscapedOpen;
      assert v[i..i + 2] == "\\{";
    } else if v[i] == '{' {
      NextUnitIsFirst(v, i, '}');
      p := if end == i + 2 then EmptyBraces else Named(v[i + 1..end - 1]);
      assert v[i..end] == "{" + v[i + 1..end - 1] + "}";
    } else {
      p := CharacterAt(v, i);
    }
  }

  lemma CharacterAt(v: Text, i: nat) returns (p: Part)
    requires Valid(v) && i < |v| && Boundary(v, i) && v[i] != '{' && !EscapedBrace(v, i)
    ensures p == Plain(v[i..Next(v, i)]) && PartOk(p)
    ensures p.text[|p.text| - 1] == '\\' ==> !OpensBrace(v[Next(v, i)..])
  {
    hide Valid;
    p := Plain(v[i..Next(v, i)]);
    SliceIsValid(v, i, Next(v, i));
    CharacterHasNoBrace(v, i);
  }

  lemma CharacterHasNoBrace(v: Text, i: nat)
    requires Valid(v) && i < |v| && Boundary(v, i) && v[i] != '{'
    ensures '{' !in v[i..Next(v, i)]
    ensures v[Next(v, i) - 1] == '\\' ==> Next(v, i) == i + 1
  {
    NextIsNext(v, i);
    assert forall j :: i < j < Next(v, i) ==> Continuation(v[j]);
  }

  /** So every text expands to the value of the parts it is written in, and its references are those
      that the scan lists. */
  lemma TextExpands(v: Text, limits: Limits, resolve: Resolver) returns (parts: seq<Part>, tail: Text)
    requires Valid(v)
    ensures WellFormed(parts, tail) && v == Spelled(parts) + tail
    ensures ExpandText(v, limits, resolve).Ok? <==> Fits(parts, limits, resolve)
    ensures ExpandText(v, limits, resolve).Ok? ==>
      ExpandText(v, limits, resolve).value == (Value(parts, resolve) + tail, Deepest(parts, resolve))
    ensures Boundary(v, 0) && ReferencesFrom(v, 0) == ReferencesOf(parts, 0)
  {
    hide Valid, WellFormed, Fits, Expand, ReferencesFrom;
    FirstBoundary(v);
    parts, tail := HasParts(v, 0);
    assert v[0..] == v;
    ExpandsToValue(parts, tail, limits, resolve);
    ScanFindsParts(parts, tail);
  }
}
