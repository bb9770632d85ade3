/** What is known of an attribute after the last event that touches it. */
module AttributeEvents {
  import opened Text
  import opened Substitution
  import opened Attributes
  import T = Templates

  /** `e` is the last of the first `k` events that touches the name, which is not external. */
  ghost predicate LastTouch(s: seq<Occurrence>, external: External, e: nat, k: nat, n: Text) {
    && e < k <= |s| && n !in external && Touches(s[e], n)
    && forall j :: e < j < k ==> !Touches(s[j], n)
  }

  /** How deeply the value of a name was expanded. */
  ghost function DepthAfter(s: seq<Occurrence>, rules: Rules, external: External, k: nat, n: Text): nat
    requires k <= |s|
  {
    DepthOf(Replay(s, rules, external, k), n)
  }

  /** What the text of the event `e`, which binds `binding`, reads where it refers to a name: the value
      known before, the failure known before, or why there is neither. */
  ghost function Read(s: seq<Occurrence>, rules: Rules, external: External, e: nat, binding: Text, name: Text)
      : Evaluated<(Text, nat)>
    requires e <= |s|
  {
    var n := Canonical(name);
    if n in external then
      match external[n] case Some(text) => Ok((text, 0)) case None => Err(if n == binding then Cycle else Undefined)
    else
      match KnownAfter(s, rules, external, e, n)
      case Value(text) => Ok((text, DepthAfter(s, rules, external, e, n)))
      case Failed(error) => Err(error)
      case _ => Err(if n == binding then Cycle else Undefined)
  }

  ghost function Reader(s: seq<Occurrence>, rules: Rules, external: External, e: nat, binding: Text): Resolver
    requires e <= |s|
  {
    name => Read(s, rules, external, e, binding, name)
  }

  // ---------------------------------------------------------------- what is read

  /** External names have their value, at depth zero, after every run. */
  lemma {:induction false} ExternalDepth(s: seq<Occurrence>, rules: Rules, external: External, k: nat, n: Text)
    requires k <= |s| && n in external && external[n].Some?
    ensures DepthAfter(s, rules, external, k, n) == 0 && n in Replay(s, rules, external, k).depths
    decreases k
  {
    hide Evaluate;
    if k > 0 {
      ExternalDepth(s, rules, external, k - 1, n);
      ReplayKeeps(s, rules, external, k - 1);
    }
  }

  lemma ReadIs(s: seq<Occurrence>, rules: Rules, external: External, e: nat, binding: Text, name: Text)
    requires e <= |s|
    ensures Lookup(Replay(s, rules, external, e), binding, name) == Read(s, rules, external, e, binding, name)
  {
    hide Apply, Canonical, Replay;
    var n := Canonical(name);
    ReplayKeeps(s, rules, external, e);
    if n in external && external[n].Some? {
      ExternalDepth(s, rules, external, e, n);
    }
  }

  /** Expansion depends on nothing but what is read. */
  lemma {:induction false} SameParts(parts: seq<T.Part>, output: Text, depth: nat, limits: Limits, a: Resolver,
      b: Resolver)
    requires forall name :: a(name) == b(name)
    ensures T.Value(parts, a) == T.Value(parts, b) && T.Deepest(parts, a) == T.Deepest(parts, b)
    ensures T.FirstReason(parts, output, depth, limits, a) == T.FirstReason(parts, output, depth, limits, b)
    decreases |parts|
  {
    hide T.FitAfter;
    if parts != [] {
      var p := parts[0];
      SamePart(p, limits, a, b);
      T.OneFits(parts, output, depth, limits, a);
      T.OneFits(parts, output, depth, limits, b);
      SameParts(parts[1..], output + T.ValueOf(p, a), Max(depth, T.DepthOf(p, a)), limits, a, b);
    }
  }

  lemma SamePart(p: T.Part, limits: Limits, a: Resolver, b: Resolver)
    requires forall name :: a(name) == b(name)
    ensures T.ValueOf(p, a) == T.ValueOf(p, b) && T.DepthOf(p, a) == T.DepthOf(p, b)
    ensures (T.Resolves(p, a) <==> T.Resolves(p, b)) && T.Reason(p, limits, a) == T.Reason(p, limits, b)
  {
  }

  lemma SameFit(parts: seq<T.Part>, limits: Limits, a: Resolver, b: Resolver)
    requires forall name :: a(name) == b(name)
    ensures T.Fits(parts, limits, a) <==> T.Fits(parts, limits, b)
  {
    hide T.Value, T.Deepest, T.Resolves;
    SameParts(parts, [], 0, limits, a, b);
    forall p ensures T.Resolves(p, a) <==> T.Resolves(p, b) {
      SamePart(p, limits, a, b);
    }
  }

  /** A text that is set is expanded over what was known before its event. */
  lemma ReadsKnown(s: seq<Occurrence>, rules: Rules, external: External, e: nat, parts: seq<T.Part>, tail: Text)
    requires e < |s| && T.WellFormed(parts, tail) && s[e].folded == T.Spelled(parts) + tail
    ensures var n := Canonical(s[e].name); var read := Reader(s, rules, external, e, n);
      ExpandText(s[e].folded, rules.limits, ResolverOf(Replay(s, rules, external, e), n))
        == if T.Fits(parts, rules.limits, read) then Ok((T.Value(parts, read) + tail, T.Deepest(parts, read)))
           else Err(T.FirstReason(parts, [], 0, rules.limits, read))
  {
    hide T.WellFormed, Expand, Replay, Canonical, T.Fits, T.Value, T.Deepest, T.FirstReason, Lookup, Read;
    var n := Canonical(s[e].name);
    var read, found := Reader(s, rules, external, e, n), ResolverOf(Replay(s, rules, external, e), n);
    forall name ensures read(name) == found(name) {
      ReadIs(s, rules, external, e, n, name);
    }
    T.ExpandsToValue(parts, tail, rules.limits, found);
    SameParts(parts, [], 0, rules.limits, read, found);
    SameFit(parts, rules.limits, read, found);
  }

  // ---------------------------------------------------------------- what is known afterwards

  /** Nothing is known of a name that no event has touched, and something of every other. */
  lemma UntouchedIff(s: seq<Occurrence>, rules: Rules, external: External, k: nat, n: Text)
    requires k <= |s| && n !in external
    ensures KnownAfter(s, rules, external, k, n) == Untouched <==> forall j :: 0 <= j < k ==> !Touches(s[j], n)
  {
    hide Touches, Replay;
    if forall j :: 0 <= j < k ==> !Touches(s[j], n) {
      KnownIsTouched(s, rules, external, k, n);
    }
  }

  lemma {:induction false} KnownIsTouched(s: seq<Occurrence>, rules: Rules, external: External, k: nat, n: Text)
    requires k <= |s| && n !in external && forall j :: 0 <= j < k ==> !Touches(s[j], n)
    ensures KnownAfter(s, rules, external, k, n) == Untouched
    decreases k
  {
    hide KnownAfter, Touches, Apply;
    if k == 0 {
      NothingKnown(s, rules, external, n);
    } else {
      KnownIsTouched(s, rules, external, k - 1, n);
      KnownStep(s, rules, external, k - 1, n);
    }
  }

  /** What the last event that touches a name leaves. */
  lemma {:induction false} LastTells(s: seq<Occurrence>, rules: Rules, external: External, e: nat, k: nat, n: Text)
    requires LastTouch(s, external, e, k, n)
    ensures KnownAfter(s, rules, external, k, n) == KnownAfter(s, rules, external, e + 1, n)
    ensures DepthAfter(s, rules, external, k, n) == DepthAfter(s, rules, external, e + 1, n)
    decreases k
  {
    hide KnownAfter, Touches, Replay, DepthAfter;
    if e + 1 < k {
      LastTells(s, rules, external, e, k - 1, n);
      KnownStep(s, rules, external, k - 1, n);
      DepthStays(s, rules, external, k - 1, n);
    }
  }

  lemma DepthStays(s: seq<Occurrence>, rules: Rules, external: External, k: nat, n: Text)
    requires k < |s| && !Touches(s[k], n)
    ensures DepthAfter(s, rules, external, k + 1, n) == DepthAfter(s, rules, external, k, n)
  {
    hide Evaluate;
  }

  /** After an attribute is unset it is known to be unset: it has no value, and referring to it fails. */
  lemma UnsetTells(s: seq<Occurrence>, rules: Rules, external: External, e: nat, k: nat, n: Text)
    requires LastTouch(s, external, e, k, n) && s[e].operation.UnsetValue?
    ensures KnownAfter(s, rules, external, k, n) == Unset && n !in Replay(s, rules, external, k).values
    ensures forall binding, name :: Canonical(name) == n ==>
      Read(s, rules, external, k, binding, name) == Err(if binding == n then Cycle else Undefined)
  {
    hide Touches, Replay, Canonical;
    LastTells(s, rules, external, e, k, n);
    UnsetEvent(s, rules, external, e, n);
  }

  lemma UnsetEvent(s: seq<Occurrence>, rules: Rules, external: External, e: nat, n: Text)
    requires e < |s| && n !in external && Touches(s[e], n) && s[e].operation.UnsetValue?
    ensures KnownAfter(s, rules, external, e + 1, n) == Unset
  {
    ReplayKeeps(s, rules, external, e);
  }

  /** A counter takes the value that follows the one known before, or its seed. */
  lemma CounterTells(s: seq<Occurrence>, rules: Rules, external: External, e: nat, k: nat, n: Text)
    requires LastTouch(s, external, e, k, n) && s[e].operation.Counter?
    ensures var before := KnownAfter(s, rules, external, e, n);
      KnownAfter(s, rules, external, k, n)
        == Value(rules.next(if before.Value? then Some(before.text) else None, if s[e].folded == [] then None
          else Some(s[e].folded)))
    ensures DepthAfter(s, rules, external, k, n) == 0
  {
    hide Touches, Replay, Canonical, KnownAfter, DepthAfter;
    LastTells(s, rules, external, e, k, n);
    CounterEvent(s, rules, external, e, n);
  }

  lemma CounterEvent(s: seq<Occurrence>, rules: Rules, external: External, e: nat, n: Text)
    requires e < |s| && n !in external && Touches(s[e], n) && s[e].operation.Counter?
    ensures var before := KnownAfter(s, rules, external, e, n);
      KnownAfter(s, rules, external, e + 1, n)
        == Value(rules.next(if before.Value? then Some(before.text) else None, if s[e].folded == [] then None
          else Some(s[e].folded)))
    ensures DepthAfter(s, rules, external, e + 1, n) == 0
  {
    ReplayKeeps(s, rules, external, e);
  }

  /** An attribute that is set has the value its text expands to over what was known before; when that
      fails it is known to have failed, and why. */
  lemma SetTells(s: seq<Occurrence>, rules: Rules, external: External, e: nat, k: nat, n: Text,
      parts: seq<T.Part>, tail: Text)
    requires LastTouch(s, external, e, k, n) && s[e].operation.SetValue?
    requires T.WellFormed(parts, tail) && s[e].folded == T.Spelled(parts) + tail
    ensures var read := Reader(s, rules, external, e, n);
      if T.Fits(parts, rules.limits, read) then
        && KnownAfter(s, rules, external, k, n) == Value(T.Value(parts, read) + tail)
        && DepthAfter(s, rules, external, k, n) == T.Deepest(parts, read)
      else KnownAfter(s, rules, external, k, n) == Failed(T.FirstReason(parts, [], 0, rules.limits, read))
  {
    hide Touches, Replay, Canonical, KnownAfter, DepthAfter, T.WellFormed, T.Fits, T.Value, T.Deepest, T.FirstReason,
      Read, ExpandText;
    LastTells(s, rules, external, e, k, n);
    ReadsKnown(s, rules, external, e, parts, tail);
    SetEvent(s, rules, external, e, n);
    assert Canonical(s[e].name) == n by { TouchedIs(s[e], n); }
  }

  lemma TouchedIs(o: Occurrence, n: Text)
    requires Touches(o, n)
    ensures Canonical(o.name) == n
  {
  }

  lemma SetEvent(s: seq<Occurrence>, rules: Rules, external: External, e: nat, n: Text)
    requires e < |s| && n !in external && Touches(s[e], n) && s[e].operation.SetValue?
    ensures match ExpandText(s[e].folded, rules.limits, ResolverOf(Replay(s, rules, external, e), n))
      case Ok((text, depth)) =>
        KnownAfter(s, rules, external, e + 1, n) == Value(text) && DepthAfter(s, rules, external, e + 1, n) == depth
      case Err(error) => KnownAfter(s, rules, external, e + 1, n) == Failed(error)
  {
    hide ExpandText;
    ReplayKeeps(s, rules, external, e);
  }

  /** Text without a brace is the value, unless it is too long. */
  lemma PlainTells(s: seq<Occurrence>, rules: Rules, external: External, e: nat, k: nat, n: Text)
    requires LastTouch(s, external, e, k, n) && s[e].operation.SetValue? && '{' !in s[e].folded
    ensures KnownAfter(s, rules, external, k, n)
      == if |s[e].folded| <= rules.limits.maxBytes then Value(s[e].folded) else Failed(SizeLimitExceeded)
  {
    hide Touches, Replay, Canonical, KnownAfter, Read;
    var text := s[e].folded;
    var parts := if text == [] then [] else [T.Plain(text)];
    var read := Reader(s, rules, external, e, n);
    PlainParts(text, rules.limits, read);
    SetTells(s, rules, external, e, k, n, parts, []);
  }

  lemma PlainParts(text: Text, limits: Limits, resolve: Resolver)
    requires Valid(text) && '{' !in text
    ensures var parts := if text == [] then [] else [T.Plain(text)];
      && T.WellFormed(parts, []) && T.Spelled(parts) + [] == text && T.Value(parts, resolve) + [] == text
      && (T.Fits(parts, limits, resolve) <==> |text| <= limits.maxBytes)
      && (limits.maxBytes < |text| ==> T.FirstReason(parts, [], 0, limits, resolve) == SizeLimitExceeded)
  {
    hide Valid;
    var parts := if text == [] then [] else [T.Plain(text)];
    if text != [] {
      assert parts[1..] == [] && parts[..1] == parts;
      assert T.Value([], resolve) == [] && T.Deepest([], resolve) == 0 && T.Spelled([]) == [];
      assert T.Value(parts, resolve) == text + [] == text;
      assert T.Spelled(parts) == text + [] == text;
    }
  }

  // ---------------------------------------------------------------- what a lookup answers

  /** The event is the last one visible at the position that touches the name. */
  ghost predicate LastVisible(s: seq<Occurrence>, external: External, e: nat, n: Text, position: Position) {
    && e < |s| && n !in external && Touches(s[e], n) && Earlier(Position(s[e].range.end, e), position)
    && forall j :: e < j < |s| && Touches(s[j], n) ==> !Earlier(Position(s[j].range.end, j), position)
  }

  /** A lookup in the environment that is built answers what the last visible event of the name left:
      after it is unset no value, after a counter the next one, after plain text that text. */
  lemma LookupTells(lines: seq<Occurrence>, counters: seq<Occurrence>, rules: Rules, entries: seq<Entry>, e: nat,
      name: Text, position: Position)
    requires Separate(lines + counters)
    requires LastVisible(InReadingOrder(lines + counters), Folded(entries), e, Canonical(name), position)
    ensures var s, external := InReadingOrder(lines + counters), Folded(entries);
      var env, n, o := Built(s, rules, external), Canonical(name), s[e];
      var known, before := KnownAfter(s, rules, external, e + 1, n), KnownAfter(s, rules, external, e, n);
      && InBounds(env, HistoryOf(env, n))
      && Resolve(env, name, position).Some?
      && var found := Resolve(env, name, position).value.value;
         && Some(found) == Answer(known)
         && (o.operation.UnsetValue? ==> found == Ok(None))
         && (o.operation.Counter? ==>
               found == Ok(Some(rules.next(if before.Value? then Some(before.text) else None,
                                           if o.folded == [] then None else Some(o.folded)))))
         && (o.operation.SetValue? && '{' !in o.folded ==>
               found == if |o.folded| <= rules.limits.maxBytes then Ok(Some(o.folded)) else Err(SizeLimitExceeded))
  {
    hide InReadingOrder, Separate, EndsAscend, Built, Resolve, KnownAfter, Folded, InBounds, Ascending, Earlier,
      VisibleEvents, HistoryOf, Canonical, Touches;
    var s, external, n := InReadingOrder(lines + counters), Folded(entries), Canonical(name);
    var v := VisibleEvents(s, |s|, position);
    BuildAnswers(lines, counters, rules, entries, name, position);
    assert LastTouch(s, external, e, v, n) && LastTouch(s, external, e, e + 1, n);
    LastTells(s, rules, external, e, v, n);
    TouchedIsKnown(s, rules, external, e, n);
    if s[e].operation.UnsetValue? {
      UnsetTells(s, rules, external, e, e + 1, n);
    } else if s[e].operation.Counter? {
      CounterTells(s, rules, external, e, e + 1, n);
    } else if '{' !in s[e].folded {
      PlainTells(s, rules, external, e, e + 1, n);
    }
  }

  /** The final values are those that are known after all events. */
  lemma FinalTells(s: seq<Occurrence>, rules: Rules, external: External, n: Text)
    requires n !in external
    ensures var final, known := Built(s, rules, external).finalValues, KnownAfter(s, rules, external, |s|, n);
      (n in final <==> known.Value?) && (n in final ==> known == Value(final[n]))
  {
    hide BuiltFrom, Replay, Touches;
    BuiltFinal(s, rules, external);
  }

  lemma TouchedIsKnown(s: seq<Occurrence>, rules: Rules, external: External, e: nat, n: Text)
    requires e < |s| && n !in external && Touches(s[e], n)
    ensures KnownAfter(s, rules, external, e + 1, n) != Untouched
  {
    hide Touches, Replay;
    UntouchedIff(s, rules, external, e + 1, n);
  }
}
