/** Document attributes in reading order, and their value at any position. */
module Attributes {
  import opened Text
  import opened Substitution

  type ValidText = v: Text | Valid(v) witness []

  datatype Operation = SetValue | UnsetValue | Counter

  /** An attribute line or counter reference; it takes effect at its end. */
  datatype Occurrence = Occurrence(range: TextRange, name: Text, folded: ValidText, operation: Operation, valid: bool)

  /** Limits of expansion, and how a counter goes on from its value or its seed. */
  datatype Rules = Rules(limits: Limits, next: (Option<Text>, Option<Text>) -> Text)

  /** An external attribute as it is given, with or without a value, in any case. Entries come in the
      order of their names. */
  datatype Entry = Entry(name: Text, value: Option<Text>)

  /** External attributes by folded name. */
  type External = map<Text, Option<Text>>

  function Canonical(name: Text): (r: Text)
    ensures |r| == |name| && forall i :: 0 <= i < |r| ==> r[i] == Lower(name[i])
  {
    seq(|name|, i requires 0 <= i < |name| => Lower(name[i]))
  }

  lemma CanonicalTwice(name: Text)
    ensures Canonical(Canonical(name)) == Canonical(name)
  {
  }

  /** Of the entries that differ in case only, the last one counts. */
  function Folded(entries: seq<Entry>): (r: External)
    ensures forall n :: n in r ==> Canonical(n) == n
  {
    if entries == [] then map[]
    else
      var e := entries[|entries| - 1];
      CanonicalTwice(e.name);
      Folded(entries[..|entries| - 1])[Canonical(e.name) := e.value]
  }

  method FoldNames(entries: seq<Entry>) returns (external: External)
    ensures external == Folded(entries)
  {
    hide Canonical;
    external := map[];
    for i := 0 to |entries|
      invariant external == Folded(entries[..i])
    {
      assert entries[..i + 1][..i] == entries[..i];
      external := external[Canonical(entries[i].name) := entries[i].value];
    }
    assert entries[..|entries|] == entries;
  }

  // ---------------------------------------------------------------- reading order

  function InsertByStart(o: Occurrence, s: seq<Occurrence>): (r: seq<Occurrence>)
    ensures multiset(r) == multiset{o} + multiset(s)
  {
    if s == [] || o.range.start <= s[0].range.start then [o] + s
    else
      assert s == [s[0]] + s[1..];
      [s[0]] + InsertByStart(o, s[1..])
  }

  /** Attribute lines and counter references together, in a stable order by start. */
  function InReadingOrder(s: seq<Occurrence>): (r: seq<Occurrence>)
    ensures multiset(r) == multiset(s)
  {
    if s == [] then []
    else
      assert s == [s[0]] + s[1..];
      InsertByStart(s[0], InReadingOrder(s[1..]))
  }

  ghost predicate StartsAscend(s: seq<Occurrence>) {
    s == [] || ((forall x :: x in s[1..] ==> s[0].range.start <= x.range.start) && StartsAscend(s[1..]))
  }

  lemma {:induction false} InsertAscends(o: Occurrence, s: seq<Occurrence>)
    requires StartsAscend(s)
    ensures StartsAscend(InsertByStart(o, s))
    decreases |s|
  {
    if s == [] || o.range.start <= s[0].range.start {
      assert ([o] + s)[1..] == s;
      assert forall x :: x in s ==> x == s[0] || x in s[1..];
    } else {
      InsertAscends(o, s[1..]);
      var rest := InsertByStart(o, s[1..]);
      assert ([s[0]] + rest)[1..] == rest;
      assert forall x :: x in rest <==> x in multiset(rest);
      assert forall x :: x in s[1..] <==> x in multiset(s[1..]);
    }
  }

  lemma {:induction false} ReadingOrderAscends(s: seq<Occurrence>)
    ensures StartsAscend(InReadingOrder(s))
    decreases |s|
  {
    if s != [] {
      ReadingOrderAscends(s[1..]);
      InsertAscends(s[0], InReadingOrder(s[1..]));
    }
  }

  /** No two occurrences share a byte, and none is empty. */
  ghost predicate Separate(s: seq<Occurrence>) {
    && (forall i :: 0 <= i < |s| ==> s[i].range.start < s[i].range.end)
    && forall i, j :: 0 <= i < j < |s| ==> s[i].range.end <= s[j].range.start || s[j].range.end <= s[i].range.start
  }

  /** Separate occurrences in reading order take effect in that order. */
  lemma {:induction false} SeparateEnds(s: seq<Occurrence>)
    requires StartsAscend(s) && Separate(s)
    ensures EndsAscend(s)
    decreases |s|
  {
    if s != [] {
      var rest := s[1..];
      assert forall i :: 0 <= i < |rest| ==> rest[i] == s[i + 1];
      SeparateEnds(rest);
      forall i, j | 0 <= i < j < |s| ensures s[i].range.end <= s[j].range.end {
        if i == 0 {
          assert s[j] in rest;
        } else {
          assert s[i] == rest[i - 1] && s[j] == rest[j - 1];
        }
      }
    }
  }

  // ---------------------------------------------------------------- sequential state

  datatype State = State(values: map<Text, Text>, depths: map<Text, nat>, failures: map<Text, ExpansionError>,
      locked: set<Text>)

  /** Values and depths know the same names, failed names have neither, recorded depths are
      within the limit, and no locked name has failed. */
  ghost predicate StateOk(st: State, limits: Limits) {
    && st.values.Keys == st.depths.Keys
    && st.failures.Keys !! st.values.Keys
    && st.failures.Keys !! st.locked
    && forall n :: n in st.depths ==> st.depths[n] <= limits.maxDepth
  }

  /** External attributes are locked; those with a value start with it. */
  function Start(external: External): State {
    var values := map n | n in external && external[n].Some? :: external[n].value;
    State(values, map n | n in values :: 0, map[], external.Keys)
  }

  /** One more external attribute. Without a value it leaves alone what another spelling gave. */
  function Locked(st: State, e: Entry): State {
    var n := Canonical(e.name);
    match e.value
    case None => st.(locked := st.locked + {n})
    case Some(v) => st.(locked := st.locked + {n}, values := st.values[n := v], depths := st.depths[n := 0])
  }

  /** The state that locks external attributes one by one. */
  function StartOf(entries: seq<Entry>): State {
    if entries == [] then State(map[], map[], map[], {})
    else Locked(StartOf(entries[..|entries| - 1]), entries[|entries| - 1])
  }

  /** The entry is the last of its name and has no value, while an earlier one has. */
  predicate Withdrawn(entries: seq<Entry>, j: nat)
    requires j < |entries|
  {
    var n := Canonical(entries[j].name);
    && entries[j].value.None?
    && (forall k :: j < k < |entries| ==> Canonical(entries[k].name) != n)
    && exists i :: 0 <= i < j && Canonical(entries[i].name) == n && entries[i].value.Some?
  }

  ghost predicate GivenFor(entries: seq<Entry>, n: Text) {
    exists i :: 0 <= i < |entries| && Canonical(entries[i].name) == n && entries[i].value.Some?
  }

  ghost predicate WithdrawnFor(entries: seq<Entry>, n: Text) {
    exists j :: 0 <= j < |entries| && Canonical(entries[j].name) == n && Withdrawn(entries, j)
  }

  lemma {:induction false} StartOfName(entries: seq<Entry>, n: Text)
    ensures var st, f := StartOf(entries), Folded(entries);
      && (n in st.locked <==> n in f) && st.failures == map[]
      && (n in st.values <==> GivenFor(entries, n)) && (n in st.values <==> n in st.depths)
      && (n in st.depths ==> st.depths[n] == 0)
      && (n in f && f[n].Some? ==> n in st.values && st.values[n] == f[n].value)
      && (n in st.values ==> n in f)
      && (n in f && f[n].None? && n in st.values <==> WithdrawnFor(entries, n))
    decreases |entries|
  {
    hide Canonical;
    if entries != [] {
      var before, e := entries[..|entries| - 1], entries[|entries| - 1];
      StartOfName(before, n);
      GivenStep(entries, n);
      WithdrawnStep(entries, n);
    }
  }

  lemma GivenStep(entries: seq<Entry>, n: Text)
    requires entries != []
    ensures var before, e := entries[..|entries| - 1], entries[|entries| - 1];
      GivenFor(entries, n) <==> GivenFor(before, n) || (Canonical(e.name) == n && e.value.Some?)
  {
    hide Canonical;
    var before := entries[..|entries| - 1];
    assert forall i :: 0 <= i < |before| ==> before[i] == entries[i];
    if GivenFor(before, n) {
      var i :| 0 <= i < |before| && Canonical(before[i].name) == n && before[i].value.Some?;
      assert entries[i] == before[i];
    }
  }

  lemma WithdrawnStep(entries: seq<Entry>, n: Text)
    requires entries != []
    ensures var before, e := entries[..|entries| - 1], entries[|entries| - 1];
      WithdrawnFor(entries, n) <==>
        if Canonical(e.name) == n then e.value.None? && GivenFor(before, n) else WithdrawnFor(before, n)
  {
    hide Canonical;
    var before, last := entries[..|entries| - 1], |entries| - 1;
    assert forall i :: 0 <= i < |before| ==> before[i] == entries[i];
    if Canonical(entries[last].name) == n {
      if entries[last].value.None? && GivenFor(before, n) {
        var i :| 0 <= i < |before| && Canonical(before[i].name) == n && before[i].value.Some?;
        assert Canonical(entries[i].name) == n && entries[i].value.Some?;
        assert Withdrawn(entries, last);
      }
    } else {
      forall j | 0 <= j < last && Canonical(entries[j].name) == n
        ensures Withdrawn(before, j) <==> Withdrawn(entries, j) {
      }
    }
  }

  /** What the two states have to do with each other at one name. */
  ghost predicate AgreeAt(st: State, start: State, n: Text, withdrawn: bool) {
    && (n in st.locked <==> n in start.locked) && (n in st.values && n !in start.values <==> withdrawn)
    && (n in start.values ==> n in st.values && st.values[n] == start.values[n])
    && (n in st.values <==> n in st.depths) && (n in st.depths ==> st.depths[n] == 0)
  }

  lemma SameState(st: State, external: External)
    requires st.failures == map[] && forall n :: AgreeAt(st, Start(external), n, false)
    ensures st == Start(external)
  {
    var start := Start(external);
    forall n ensures
      && (n in st.locked <==> n in start.locked) && (n in st.values <==> n in start.values)
      && (n in start.values ==> st.values[n] == start.values[n])
      && (n in st.values <==> n in st.depths) && (n in st.depths ==> st.depths[n] == 0)
    {
      assert AgreeAt(st, start, n, false);
    }
    assert st.values == start.values;
    assert st.depths == start.depths;
    assert st.locked == start.locked;
  }

  lemma StatesAgree(entries: seq<Entry>, n: Text)
    ensures AgreeAt(StartOf(entries), Start(Folded(entries)), n, WithdrawnFor(entries, n))
      && StartOf(entries).failures == map[]
  {
    hide StartOf, Folded, WithdrawnFor, GivenFor;
    StartOfName(entries, n);
  }

  /** Locking external attributes one by one gives what folding their names first gives, exactly when
      no value is withdrawn under another spelling of its name. */
  lemma StartOfIff(entries: seq<Entry>)
    ensures StartOf(entries) == Start(Folded(entries)) <==> forall j :: 0 <= j < |entries| ==> !Withdrawn(entries, j)
  {
    hide StartOf, Folded, Withdrawn, Start, AgreeAt;
    var st, start := StartOf(entries), Start(Folded(entries));
    if j :| 0 <= j < |entries| && Withdrawn(entries, j) {
      var n := Canonical(entries[j].name);
      StatesAgree(entries, n);
      assert WithdrawnFor(entries, n);
      NotTheSame(st, start, n);
    } else {
      forall n ensures AgreeAt(st, start, n, false) {
        StatesAgree(entries, n);
      }
      StatesAgree(entries, []);
      SameState(st, Folded(entries));
    }
  }

  lemma NotTheSame(st: State, start: State, n: Text)
    requires AgreeAt(st, start, n, true)
    ensures st != start
  {
  }

  /** Two spellings of one name, the second without a value. */
  lemma SpellingsCanDiffer(value: Text)
    ensures var entries := [Entry("A", Some(value)), Entry("a", None)];
      && "a" in StartOf(entries).values && "a" !in Start(Folded(entries)).values
  {
    var entries := [Entry("A", Some(value)), Entry("a", None)];
    assert Canonical("A") == Canonical("a") == "a";
    assert Canonical(entries[0].name) == "a" && entries[0].value.Some?;
    assert Withdrawn(entries, 1);
    assert WithdrawnFor(entries, "a");
    StartOfName(entries, "a");
  }

  /** Lists attributes whose names are folded; in any order they give the same state. */
  method ListExternal(external: External) returns (entries: seq<Entry>)
    requires forall n :: n in external ==> Canonical(n) == n
    ensures StartOf(entries) == Start(external)
  {
    hide Canonical;
    entries := [];
    var names := external.Keys;
    ghost var done: External := map[];
    while names != {}
      invariant names <= external.Keys
      invariant done == map n | n in external && n !in names :: external[n]
      invariant StartOf(entries) == Start(done)
      decreases names
    {
      var n :| n in names;
      var e := Entry(n, external[n]);
      assert (entries + [e])[..|entries|] == entries;
      LockedOnce(done, e);
      entries := entries + [e];
      names := names - {n};
      done := done[n := external[n]];
    }
    assert done == external;
  }

  lemma LockedOnce(done: External, e: Entry)
    requires Canonical(e.name) == e.name && e.name !in done
    ensures Locked(Start(done), e) == Start(done[e.name := e.value])
  {
    hide Canonical;
    var now := done[e.name := e.value];
    assert now.Keys == done.Keys + {e.name};
  }

  /** What a definition of `binding` sees of the attribute `name`. */
  function Lookup(st: State, binding: Text, name: Text): Evaluated<(Text, nat)> {
    var n := Canonical(name);
    if n in st.values then Ok((st.values[n], if n in st.depths then st.depths[n] else 0))
    else if n in st.failures then Err(st.failures[n])
    else if n == binding then Err(Cycle)
    else Err(Undefined)
  }

  function ResolverOf(st: State, binding: Text): Resolver {
    reference => Lookup(st, binding, reference)
  }

  function Evaluate(st: State, rules: Rules, o: Occurrence): Evaluated<(Option<Text>, nat)> {
    var name := Canonical(o.name);
    match o.operation
    case SetValue =>
      (match ExpandText(o.folded, rules.limits, ResolverOf(st, name))
       case Ok((text, depth)) => Ok((Some(text), depth))
       case Err(e) => Err(e))
    case UnsetValue => Ok((None, 0))
    case Counter =>
      var previous := if name in st.values then Some(st.values[name]) else None;
      var seed := if o.folded == [] then None else Some(o.folded);
      Ok((Some(rules.next(previous, seed)), 0))
  }

  function Without<T>(m: map<Text, T>, n: Text): map<Text, T> { m - {n} }

  /** One event: the state after it, and what it reports. */
  function Apply(st: State, rules: Rules, o: Occurrence): (State, Evaluated<Option<Text>>) {
    var name := Canonical(o.name);
    if !o.valid then (st, Ok(None))
    else if name in st.locked then (st, Ok(if name in st.values then Some(st.values[name]) else None))
    else
      match Evaluate(st, rules, o)
      case Ok((Some(value), depth)) =>
        (st.(values := st.values[name := value], depths := st.depths[name := depth],
          failures := Without(st.failures, name)), Ok(Some(value)))
      case Ok((None, _)) =>
        (st.(values := Without(st.values, name), depths := Without(st.depths, name),
          failures := Without(st.failures, name)), Ok(None))
      case Err(e) =>
        (st.(values := Without(st.values, name), depths := Without(st.depths, name),
          failures := st.failures[name := e]), Err(e))
  }

  lemma StartOk(external: External, limits: Limits)
    ensures StateOk(Start(external), limits)
  {
  }

  /** Every event keeps the state consistent, and locked names as they are. */
  lemma ApplyKeeps(st: State, rules: Rules, o: Occurrence)
    requires StateOk(st, rules.limits)
    ensures var now := Apply(st, rules, o).0;
      && StateOk(now, rules.limits) && now.locked == st.locked
      && forall n :: n in st.locked ==>
         (n in now.values <==> n in st.values) && (n in st.values ==> now.values[n] == st.values[n])
  {
    hide Evaluate;
    EvaluatedDepth(st, rules, o);
  }

  lemma EvaluatedDepth(st: State, rules: Rules, o: Occurrence)
    ensures var r := Evaluate(st, rules, o); r.Ok? ==> r.value.1 <= rules.limits.maxDepth
  {
    hide Expand, Lookup;
    if o.operation == SetValue {
      ExpansionIsBounded(o.folded, 0, [], 0, rules.limits, ResolverOf(st, Canonical(o.name)));
    }
  }

  /** An event leaves the names it does not bind as they were. */
  lemma ApplyFrame(st: State, rules: Rules, o: Occurrence, n: Text)
    requires !o.valid || Canonical(o.name) != n
    ensures var now := Apply(st, rules, o).0;
      && (n in now.values <==> n in st.values) && (n in st.values ==> now.values[n] == st.values[n])
      && (n in now.failures <==> n in st.failures) && (n in st.failures ==> now.failures[n] == st.failures[n])
  {
    hide Evaluate;
  }

  class SequentialAttributeState {
    var values: map<Text, Text>
    var depths: map<Text, nat>
    var failures: map<Text, ExpansionError>
    var locked: set<Text>

    ghost function View(): State
      reads this
    {
      State(values, depths, failures, locked)
    }

    constructor WithLockedValues(entries: seq<Entry>)
      ensures View() == StartOf(entries)
    {
      hide Canonical;
      var names: set<Text> := {};
      var known: map<Text, Text> := map[];
      var levels: map<Text, nat> := map[];
      for i := 0 to |entries|
        invariant State(known, levels, map[], names) == StartOf(entries[..i])
      {
        assert entries[..i + 1][..i] == entries[..i];
        var n := Canonical(entries[i].name);
        names := names + {n};
        if entries[i].value.Some? {
          known := known[n := entries[i].value.value];
          levels := levels[n := 0];
        }
      }
      assert entries[..|entries|] == entries;
      values, depths, failures, locked := known, levels, map[], names;
    }

    method ApplyEvent(rules: Rules, o: Occurrence) returns (r: Evaluated<Option<Text>>)
      modifies this
      ensures (View(), r) == Apply(old(View()), rules, o)
    {
      hide ExpandText;
      if !o.valid {
        return Ok(None);
      }
      var name := Canonical(o.name);
      if name in locked {
        return Ok(if name in values then Some(values[name]) else None);
      }
      var text, depth := None, 0;
      if o.operation == SetValue {
        var st := State(values, depths, failures, locked);
        var expanded := ExpandAttributeText(o.folded, rules.limits, ResolverOf(st, name));
        if expanded.Err? {
          values := values - {name};
          depths := depths - {name};
          failures := failures[name := expanded.error];
          return Err(expanded.error);
        }
        text, depth := Some(expanded.value.0), expanded.value.1;
      } else if o.operation == Counter {
        var previous := if name in values then Some(values[name]) else None;
        text := Some(rules.next(previous, if o.folded == [] then None else Some(o.folded)));
      }
      if text.Some? {
        values := values[name := text.value];
        depths := depths[name := depth];
      } else {
        values := values - {name};
        depths := depths - {name};
      }
      failures := failures - {name};
      r := Ok(text);
    }
  }

  // ---------------------------------------------------------------- replay

  function Replay(s: seq<Occurrence>, rules: Rules, external: External, k: nat): State
    requires k <= |s|
  {
    if k == 0 then Start(external) else Apply(Replay(s, rules, external, k - 1), rules, s[k - 1]).0
  }

  /** Over every run the state stays consistent and external names keep their values. */
  lemma {:induction false} ReplayKeeps(s: seq<Occurrence>, rules: Rules, external: External, k: nat)
    requires k <= |s|
    ensures var st := Replay(s, rules, external, k);
      && StateOk(st, rules.limits) && st.locked == external.Keys
      && forall n :: n in external ==>
         (n in st.values <==> external[n].Some?) && (external[n].Some? ==> st.values[n] == external[n].value)
  {
    hide Apply;
    if k == 0 {
      StartOk(external, rules.limits);
    } else {
      ReplayKeeps(s, rules, external, k - 1);
      ApplyKeeps(Replay(s, rules, external, k - 1), rules, s[k - 1]);
    }
  }

  predicate Touches(o: Occurrence, n: Text) { o.valid && Canonical(o.name) == n }

  /** What is known of a name. */
  datatype Known = Untouched | Value(text: Text) | Unset | Failed(error: ExpansionError)

  /** What replaying the first `k` events leaves known of the name `n`. */
  ghost function KnownAfter(s: seq<Occurrence>, rules: Rules, external: External, k: nat, n: Text): Known
    requires k <= |s|
  {
    var st := Replay(s, rules, external, k);
    if n in st.values then Value(st.values[n])
    else if n in st.failures then Failed(st.failures[n])
    else if exists i :: 0 <= i < k && Touches(s[i], n) then Unset
    else Untouched
  }

  function Reported(r: Evaluated<Option<Text>>): Known {
    match r case Ok(Some(t)) => Value(t) case Ok(None) => Unset case Err(e) => Failed(e)
  }

  /** Only the last event that touches a name matters for it. */
  lemma {:induction false} KnownStep(s: seq<Occurrence>, rules: Rules, external: External, k: nat, n: Text)
    requires k < |s| && n !in external
    ensures KnownAfter(s, rules, external, k + 1, n)
         == if Touches(s[k], n) then Reported(Apply(Replay(s, rules, external, k), rules, s[k]).1)
           else KnownAfter(s, rules, external, k, n)
  {
    hide Evaluate;
    ReplayKeeps(s, rules, external, k);
    var st := Replay(s, rules, external, k);
    if !Touches(s[k], n) {
      ApplyFrame(st, rules, s[k], n);
    }
  }

  lemma NothingKnown(s: seq<Occurrence>, rules: Rules, external: External, n: Text)
    requires n !in external
    ensures KnownAfter(s, rules, external, 0, n) == Untouched
  {
  }

  // ---------------------------------------------------------------- the environment

  datatype Binding = Binding(event: nat, visibleAt: nat, value: Evaluated<Option<Text>>, depth: nat)

  datatype Environment = Environment(bindings: seq<Binding>, histories: map<Text, seq<nat>>,
      finalValues: map<Text, Text>, external: External)

  function HistoryOf(env: Environment, n: Text): seq<nat> {
    if n in env.histories then env.histories[n] else []
  }

  /** Records one event that binds `n`. */
  function Record(env: Environment, n: Text, b: Binding): Environment {
    env.(bindings := env.bindings + [b], histories := env.histories[n := HistoryOf(env, n) + [|env.bindings|]])
  }

  function DepthOf(st: State, n: Text): nat { if n in st.depths then st.depths[n] else 0 }

  /** The loop of `build` from event `i` on. */
  function BuiltFrom(s: seq<Occurrence>, rules: Rules, i: nat, st: State, env: Environment): Environment
    requires i <= |s|
    decreases |s| - i
  {
    if i == |s| then env.(finalValues := st.values)
    else
      var n := Canonical(s[i].name);
      if !s[i].valid || n in st.locked then BuiltFrom(s, rules, i + 1, st, env)
      else
        var (now, value) := Apply(st, rules, s[i]);
        BuiltFrom(s, rules, i + 1, now, Record(env, n, Binding(i, s[i].range.end, value, DepthOf(now, n))))
  }

  const EMPTY := Environment([], map[], map[], map[])

  function Built(s: seq<Occurrence>, rules: Rules, external: External): Environment {
    BuiltFrom(s, rules, 0, Start(external), EMPTY.(external := external))
  }

  /** Attribute lines and counters in reading order, each applied once. */
  method Build(lines: seq<Occurrence>, counters: seq<Occurrence>, rules: Rules, entries: seq<Entry>)
      returns (env: Environment)
    ensures env == Built(InReadingOrder(lines + counters), rules, Folded(entries))
  {
    hide Evaluate, InReadingOrder, StartOf, Start, Folded;
    var s := InReadingOrder(lines + counters);
    var external := FoldNames(entries);
    var normalized := ListExternal(external);
    var state := new SequentialAttributeState.WithLockedValues(normalized);
    env := EMPTY.(external := external);
    for i := 0 to |s|
      invariant fresh(state)
      invariant Built(s, rules, external) == BuiltFrom(s, rules, i, state.View(), env)
    {
      var name := Canonical(s[i].name);
      if !s[i].valid || name in state.locked {
        continue;
      }
      var value := state.ApplyEvent(rules, s[i]);
      var depth := if name in state.depths then state.depths[name] else 0;
      var index := |env.bindings|;
      var history := if name in env.histories then env.histories[name] else [];
      env := env.(bindings := env.bindings + [Binding(i, s[i].range.end, value, depth)],
        histories := env.histories[name := history + [index]]);
    }
    env := env.(finalValues := state.values);
  }

  // ---------------------------------------------------------------- positions

  /** A point in reading order: an offset, then an event. */
  datatype Position = Position(offset: nat, event: nat)

  predicate Earlier(a: Position, b: Position) {
    a.offset < b.offset || (a.offset == b.offset && a.event < b.event)
  }

  function VisibleFrom(b: Binding): Position { Position(b.visibleAt, b.event) }

  ghost predicate InBounds(env: Environment, history: seq<nat>) {
    forall j :: 0 <= j < |history| ==> history[j] < |env.bindings|
  }

  /** How many leading bindings of a history are visible. */
  function VisibleCount(env: Environment, history: seq<nat>, position: Position): (r: nat)
    requires InBounds(env, history)
    ensures r <= |history|
    decreases |history|
  {
    if history == [] || !Earlier(VisibleFrom(env.bindings[history[0]]), position) then 0
    else 1 + VisibleCount(env, history[1..], position)
  }

  /** The history lists its bindings in the order in which they become visible. */
  ghost predicate Ascending(env: Environment, history: seq<nat>)
    requires InBounds(env, history)
  {
    forall i, j :: 0 <= i < j < |history| ==>
      Earlier(VisibleFrom(env.bindings[history[i]]), VisibleFrom(env.bindings[history[j]]))
  }

  lemma {:induction false} VisibleIsPrefix(env: Environment, history: seq<nat>, position: Position)
    requires InBounds(env, history) && Ascending(env, history)
    ensures forall j :: 0 <= j < |history| ==>
      (j < VisibleCount(env, history, position) <==> Earlier(VisibleFrom(env.bindings[history[j]]), position))
    decreases |history|
  {
    if history != [] {
      var rest := history[1..];
      assert forall i :: 0 <= i < |rest| ==> rest[i] == history[i + 1];
      if Earlier(VisibleFrom(env.bindings[history[0]]), position) {
        VisibleIsPrefix(env, rest, position);
        assert forall j :: 1 <= j < |history| ==> history[j] == rest[j - 1];
      }
    }
  }

  /** The partition point, by binary search. */
  method PartitionPoint(env: Environment, history: seq<nat>, position: Position) returns (count: nat)
    requires InBounds(env, history) && Ascending(env, history)
    ensures count == VisibleCount(env, history, position)
  {
    VisibleIsPrefix(env, history, position);
    ghost var n := VisibleCount(env, history, position);
    var low, high := 0, |history|;
    while low < high
      invariant 0 <= low <= n <= high <= |history|
    {
      var mid := (low + high) / 2;
      if Earlier(VisibleFrom(env.bindings[history[mid]]), position) {
        low := mid + 1;
      } else {
        high := mid;
      }
    }
    count := low;
  }

  /** A value, and the authored binding it comes from. */
  datatype Resolved = Resolved(value: Evaluated<Option<Text>>, binding: Option<nat>)

  function Resolve(env: Environment, name: Text, position: Position): Option<Resolved>
    requires InBounds(env, HistoryOf(env, Canonical(name)))
  {
    var n := Canonical(name);
    if n in env.external then Some(Resolved(Ok(env.external[n]), None))
    else
      var visible := VisibleCount(env, HistoryOf(env, n), position);
      if visible == 0 then None
      else Some(Resolved(env.bindings[HistoryOf(env, n)[visible - 1]].value, Some(HistoryOf(env, n)[visible - 1])))
  }

  method ResolveAtEvent(env: Environment, name: Text, position: Position) returns (r: Option<Resolved>)
    requires InBounds(env, HistoryOf(env, Canonical(name))) && Ascending(env, HistoryOf(env, Canonical(name)))
    ensures r == Resolve(env, name, position)
  {
    var n := Canonical(name);
    if n in env.external {
      return Some(Resolved(Ok(env.external[n]), None));
    }
    if n !in env.histories {
      return None;
    }
    var history := env.histories[n];
    var visible := PartitionPoint(env, history, position);
    if visible == 0 {
      return None;
    }
    r := Some(Resolved(env.bindings[history[visible - 1]].value, Some(history[visible - 1])));
  }

  // ---------------------------------------------------------------- the index agrees with replay

  /** The events below `k` that bind `n`, in order. */
  function Touching(s: seq<Occurrence>, n: Text, k: nat): (r: seq<nat>)
    requires k <= |s|
    ensures forall j :: 0 <= j < |r| ==> r[j] < k
  {
    if k == 0 then [] else Touching(s, n, k - 1) + if Touches(s[k - 1], n) then [k - 1] else []
  }

  lemma {:induction false} TouchingBelow(s: seq<Occurrence>, n: Text, k: nat)
    requires k <= |s|
    ensures var t := Touching(s, n, k);
      && (forall j :: 0 <= j < |t| ==> t[j] < k && Touches(s[t[j]], n))
      && (forall i, j :: 0 <= i < j < |t| ==> t[i] < t[j])
      && (forall i :: 0 <= i < k && Touches(s[i], n) ==> i in t)
  {
    if k > 0 {
      TouchingBelow(s, n, k - 1);
    }
  }

  /** The binding that event `e` makes. */
  function BindingOf(s: seq<Occurrence>, rules: Rules, external: External, e: nat): Binding
    requires e < |s|
  {
    var (now, value) := Apply(Replay(s, rules, external, e), rules, s[e]);
    Binding(e, s[e].range.end, value, DepthOf(now, Canonical(s[e].name)))
  }

  /** The bindings that the events below `k` make for `n`, in order. */
  function Bindings(s: seq<Occurrence>, rules: Rules, external: External, n: Text, k: nat): seq<Binding>
    requires k <= |s|
  {
    if k == 0 then []
    else Bindings(s, rules, external, n, k - 1) + if Touches(s[k - 1], n) then
      [BindingOf(s, rules, external, k - 1)] else []
  }

  lemma {:induction false} BindingsAt(s: seq<Occurrence>, rules: Rules, external: External, n: Text, k: nat)
    requires k <= |s|
    ensures var bindings, events := Bindings(s, rules, external, n, k), Touching(s, n, k);
      |bindings| == |events| && forall j :: 0 <= j < |events| ==>
        bindings[j] == BindingOf(s, rules, external, events[j])
  {
    hide BindingOf;
    if k > 0 {
      BindingsAt(s, rules, external, n, k - 1);
    }
  }

  function Entries(env: Environment, history: seq<nat>): seq<Binding>
    requires InBounds(env, history)
  {
    seq(|history|, j requires 0 <= j < |history| => env.bindings[history[j]])
  }

  /** The history of a name holds exactly the bindings that events make for it. */
  ghost predicate Indexed(s: seq<Occurrence>, rules: Rules, external: External, k: nat, env: Environment, n: Text)
    requires k <= |s|
  {
    var expected := if n in external then [] else Bindings(s, rules, external, n, k);
    && InBounds(env, HistoryOf(env, n)) && Entries(env, HistoryOf(env, n)) == expected
    && (n in env.histories <==> expected != [])
  }

  lemma IndexedNothing(s: seq<Occurrence>, rules: Rules, external: External, env: Environment, n: Text)
    requires env.histories == map[]
    ensures Indexed(s, rules, external, 0, env, n)
  {
  }

  lemma IndexedSkips(s: seq<Occurrence>, rules: Rules, external: External, k: nat, env: Environment, n: Text)
    requires k < |s| && Indexed(s, rules, external, k, env, n) && (!Touches(s[k], n) || n in external)
    ensures Indexed(s, rules, external, k + 1, env, n)
  {
    hide BindingOf, Entries, InBounds, Touches;
    if n !in external {
      assert Bindings(s, rules, external, n, k) + [] == Bindings(s, rules, external, n, k);
    }
  }

  lemma RecordEntries(env: Environment, n: Text, b: Binding, m: Text)
    requires InBounds(env, HistoryOf(env, m))
    ensures var now := Record(env, n, b);
      && InBounds(now, HistoryOf(now, m))
         && Entries(now, HistoryOf(now, m)) == Entries(env, HistoryOf(env, m)) + (if n == m then [b] else [])
      && (m in now.histories <==> n == m || m in env.histories)
  {
  }

  lemma BindingsStep(s: seq<Occurrence>, rules: Rules, external: External, n: Text, k: nat)
    requires k < |s| && s[k].valid
    ensures Bindings(s, rules, external, n, k + 1)
         == Bindings(s, rules, external, n, k)
           + (if Canonical(s[k].name) == n then [BindingOf(s, rules, external, k)] else [])
  {
    hide BindingOf;
  }

  lemma IndexedRecords(s: seq<Occurrence>, rules: Rules, external: External, k: nat, env: Environment, n: Text)
    requires k < |s| && Indexed(s, rules, external, k, env, n) && s[k].valid && Canonical(s[k].name) !in external
    ensures Indexed(s, rules, external, k + 1, Record(env, Canonical(s[k].name), BindingOf(s, rules, external, k)), n)
  {
    hide BindingOf, Entries, InBounds, Canonical, Bindings, HistoryOf, Record;
    var m, b := Canonical(s[k].name), BindingOf(s, rules, external, k);
    RecordEntries(env, m, b, n);
    BindingsStep(s, rules, external, n, k);
  }

  /** Building from any point that is indexed so far indexes the rest. */
  lemma {:induction false} BuiltIsIndexed(s: seq<Occurrence>, rules: Rules, external: External, i: nat,
      env: Environment, n: Text)
    requires i <= |s| && Indexed(s, rules, external, i, env, n)
    ensures var r := BuiltFrom(s, rules, i, Replay(s, rules, external, i), env);
      && Indexed(s, rules, external, |s|, r, n)
      && r.external == env.external && r.finalValues == Replay(s, rules, external, |s|).values
    decreases |s| - i
  {
    hide Evaluate, Indexed, Apply;
    if i < |s| {
      var st, m := Replay(s, rules, external, i), Canonical(s[i].name);
      ReplayKeeps(s, rules, external, i);
      if !s[i].valid || m in st.locked {
        SkippedEvent(st, rules, s[i]);
        IndexedSkips(s, rules, external, i, env, n);
        BuiltIsIndexed(s, rules, external, i + 1, env, n);
      } else {
        IndexedRecords(s, rules, external, i, env, n);
        BuiltIsIndexed(s, rules, external, i + 1, Record(env, m, BindingOf(s, rules, external, i)), n);
      }
    } else {
      IndexedFinal(s, rules, external, env, Replay(s, rules, external, |s|).values, n);
    }
  }

  lemma BuiltIs(s: seq<Occurrence>, rules: Rules, external: External, n: Text)
    ensures var env := Built(s, rules, external);
      && Indexed(s, rules, external, |s|, env, n)
      && env.external == external && env.finalValues == Replay(s, rules, external, |s|).values
  {
    hide BuiltFrom, Indexed, Apply;
    IndexedNothing(s, rules, external, EMPTY.(external := external), n);
    BuiltIsIndexed(s, rules, external, 0, EMPTY.(external := external), n);
  }

  lemma IndexedFinal(s: seq<Occurrence>, rules: Rules, external: External, env: Environment,
      values: map<Text, Text>, n: Text)
    requires Indexed(s, rules, external, |s|, env, n)
    ensures Indexed(s, rules, external, |s|, env.(finalValues := values), n)
  {
    hide BindingOf;
  }

  lemma SkippedEvent(st: State, rules: Rules, o: Occurrence)
    requires !o.valid || Canonical(o.name) in st.locked
    ensures Apply(st, rules, o).0 == st
  {
  }

  /** Events become visible in reading order. */
  ghost predicate EndsAscend(s: seq<Occurrence>) {
    forall i, j :: 0 <= i < j < |s| ==> s[i].range.end <= s[j].range.end
  }

  /** The number of events visible before a position; they come first. */
  function VisibleEvents(s: seq<Occurrence>, k: nat, position: Position): (r: nat)
    requires k <= |s|
    ensures r <= k
  {
    if k == 0 then 0
    else if Earlier(Position(s[k - 1].range.end, k - 1), position) then k
    else VisibleEvents(s, k - 1, position)
  }

  lemma {:induction false} VisibleEventsFirst(s: seq<Occurrence>, k: nat, position: Position)
    requires k <= |s| && EndsAscend(s)
    ensures forall i :: 0 <= i < k ==>
      (i < VisibleEvents(s, k, position) <==> Earlier(Position(s[i].range.end, i), position))
  {
    if k > 0 && !Earlier(Position(s[k - 1].range.end, k - 1), position) {
      VisibleEventsFirst(s, k - 1, position);
    }
  }

  lemma EntryAt(s: seq<Occurrence>, rules: Rules, external: External, env: Environment, n: Text, j: nat)
    requires n !in external && Indexed(s, rules, external, |s|, env, n) && j < |HistoryOf(env, n)|
    ensures |HistoryOf(env, n)| == |Touching(s, n, |s|)| && HistoryOf(env, n)[j] < |env.bindings|
    ensures var e, b := Touching(s, n, |s|)[j], env.bindings[HistoryOf(env, n)[j]];
      b == BindingOf(s, rules, external, e) && VisibleFrom(b) == Position(s[e].range.end, e)
  {
    hide Apply;
    BindingsAt(s, rules, external, n, |s|);
    assert Entries(env, HistoryOf(env, n))[j] == env.bindings[HistoryOf(env, n)[j]];
  }

  lemma IndexedAscends(s: seq<Occurrence>, rules: Rules, external: External, env: Environment, n: Text)
    requires EndsAscend(s) && Indexed(s, rules, external, |s|, env, n)
    ensures InBounds(env, HistoryOf(env, n)) && Ascending(env, HistoryOf(env, n))
  {
    hide BindingOf, Bindings, EndsAscend;
    var history := HistoryOf(env, n);
    if n !in external {
      TouchingBelow(s, n, |s|);
      forall i, j | 0 <= i < j < |history|
        ensures Earlier(VisibleFrom(env.bindings[history[i]]), VisibleFrom(env.bindings[history[j]]))
      {
        EntryAt(s, rules, external, env, n, i);
        EntryAt(s, rules, external, env, n, j);
        EndsOrdered(s, Touching(s, n, |s|)[i], Touching(s, n, |s|)[j]);
      }
    } else {
      assert |Entries(env, history)| == 0;
    }
  }

  lemma EndsOrdered(s: seq<Occurrence>, i: nat, j: nat)
    requires EndsAscend(s) && i < j < |s|
    ensures s[i].range.end <= s[j].range.end
  {
  }

  /** Two prefixes cut off by the same test are the same. */
  lemma SameCount(a: nat, b: nat, size: nat, visible: set<int>)
    requires a <= size && b <= size
    requires forall j :: 0 <= j < size ==> (j < a <==> j in visible)
    requires forall j :: 0 <= j < size ==> (j < b <==> j in visible)
    ensures a == b
  {
    var x, y := a in visible, b in visible;
  }

  lemma TouchingCut(s: seq<Occurrence>, n: Text, v: nat, j: nat)
    requires v <= |s| && j < |Touching(s, n, |s|)|
    ensures Touching(s, n, v) <= Touching(s, n, |s|)
    ensures j < |Touching(s, n, v)| <==> Touching(s, n, |s|)[j] < v
  {
    var events, cut := Touching(s, n, |s|), Touching(s, n, v);
    TouchingPrefix(s, n, v, |s|);
    TouchingBelow(s, n, |s|);
    TouchingBelow(s, n, v);
    assert forall i :: 0 <= i < |cut| ==> events[i] == cut[i];
    assert events[j] < v ==> events[j] in cut;
  }

  /** The visible part of a history is the history of the visible events. */
  lemma VisibleHistory(s: seq<Occurrence>, rules: Rules, external: External, env: Environment, n: Text,
      position: Position)
    requires EndsAscend(s) && n !in external && Indexed(s, rules, external, |s|, env, n)
    ensures InBounds(env, HistoryOf(env, n))
    ensures var v := VisibleEvents(s, |s|, position);
      VisibleCount(env, HistoryOf(env, n), position) == |Touching(s, n, v)| && Touching(s, n, v) <= Touching(s, n, |s|)
      && |HistoryOf(env, n)| == |Touching(s, n, |s|)|
  {
    hide BindingOf, Bindings, EndsAscend, VisibleCount, Touching, VisibleEvents, Ascending, Indexed, Earlier, HistoryOf;
    var v, history := VisibleEvents(s, |s|, position), HistoryOf(env, n);
    IndexedAscends(s, rules, external, env, n);
    VisibleIsPrefix(env, history, position);
    VisibleEventsFirst(s, |s|, position);
    TouchingPrefix(s, n, v, |s|);
    HistoryLength(s, rules, external, env, n);
    var a, c := VisibleCount(env, history, position), |Touching(s, n, v)|;
    var visible := set j | 0 <= j < |history| && Earlier(VisibleFrom(env.bindings[history[j]]), position);
    forall j | 0 <= j < |history| ensures j < c <==> j in visible {
      EntryAt(s, rules, external, env, n, j);
      TouchingCut(s, n, v, j);
    }
    SameCount(a, c, |history|, visible);
  }

  lemma HistoryLength(s: seq<Occurrence>, rules: Rules, external: External, env: Environment, n: Text)
    requires n !in external && Indexed(s, rules, external, |s|, env, n)
    ensures |HistoryOf(env, n)| == |Touching(s, n, |s|)|
  {
    hide BindingOf;
    BindingsAt(s, rules, external, n, |s|);
    assert |Entries(env, HistoryOf(env, n))| == |HistoryOf(env, n)|;
  }

  lemma {:induction false} TouchingPrefix(s: seq<Occurrence>, n: Text, v: nat, k: nat)
    requires v <= k <= |s|
    ensures Touching(s, n, v) <= Touching(s, n, k)
    decreases k
  {
    if v < k {
      TouchingPrefix(s, n, v, k - 1);
    }
  }

  /** What replay knows of a name is what its last binding reported. */
  lemma {:induction false} KnownFromLast(s: seq<Occurrence>, rules: Rules, external: External, k: nat, n: Text)
    requires k <= |s| && n !in external
    ensures var events := Touching(s, n, k);
      KnownAfter(s, rules, external, k, n)
      == if events == [] then Untouched else Reported(BindingOf(s, rules, external, events[|events| - 1]).value)
  {
    hide Apply, KnownAfter, Replay, BindingOf, Touches;
    if k == 0 {
      NothingKnown(s, rules, external, n);
    } else {
      KnownStep(s, rules, external, k - 1, n);
      BindingValue(s, rules, external, k - 1);
      KnownFromLast(s, rules, external, k - 1, n);
    }
  }

  lemma BindingValue(s: seq<Occurrence>, rules: Rules, external: External, e: nat)
    requires e < |s|
    ensures BindingOf(s, rules, external, e).value == Apply(Replay(s, rules, external, e), rules, s[e]).1
  {
    hide Apply, Replay;
  }

  function Answer(k: Known): Option<Evaluated<Option<Text>>> {
    match k
    case Untouched => None
    case Value(t) => Some(Ok(Some(t)))
    case Unset => Some(Ok(None))
    case Failed(e) => Some(Err(e))
  }

  /** Looking a name up at a position gives what replaying exactly the events visible before it
      leaves known: a value, an unset or failed name, or nothing; a locked name keeps its value.
      The binding is that of the last visible event that touches the name. */
  lemma ResolveIsReplay(s: seq<Occurrence>, rules: Rules, external: External, name: Text, position: Position)
    requires EndsAscend(s)
    ensures var env, n, v := Built(s, rules, external), Canonical(name), VisibleEvents(s, |s|, position);
      && InBounds(env, HistoryOf(env, n)) && Ascending(env, HistoryOf(env, n))
      && var r := Resolve(env, name, position);
         if n in external then r == Some(Resolved(Ok(external[n]), None))
         else
           && (r.Some? <==> Answer(KnownAfter(s, rules, external, v, n)).Some?)
           && (r.Some? ==>
                 && Some(r.value.value) == Answer(KnownAfter(s, rules, external, v, n))
                 && r.value.binding.Some? && r.value.binding.value < |env.bindings|
                 && Touching(s, n, v) != []
                 && env.bindings[r.value.binding.value].event == Touching(s, n, v)[|Touching(s, n, v)| - 1])
  {
    hide Apply, KnownAfter, BuiltFrom, VisibleCount, Indexed, Touching, VisibleEvents, Ascending, EndsAscend,
      Canonical, HistoryOf;
    var env, n := Built(s, rules, external), Canonical(name);
    BuiltIs(s, rules, external, n);
    IndexedAscends(s, rules, external, env, n);
    if n !in external {
      VisibleHistory(s, rules, external, env, n, position);
      var v := VisibleEvents(s, |s|, position);
      KnownFromLast(s, rules, external, v, n);
      if Touching(s, n, v) != [] {
        EntryAt(s, rules, external, env, n, |Touching(s, n, v)| - 1);
      }
      AnswerReported(Resolve(env, name, position));
    }
  }

  lemma {:induction false} InsertSeparate(o: Occurrence, s: seq<Occurrence>)
    requires Separate(s) && o.range.start < o.range.end
    requires forall x :: x in s ==> x.range.end <= o.range.start || o.range.end <= x.range.start
    ensures Separate(InsertByStart(o, s))
    decreases |s|
  {
    hide Separate;
    if s == [] || o.range.start <= s[0].range.start {
      SeparateFirst(o, s);
    } else {
      var rest := s[1..];
      SeparateRest(s);
      InsertSeparate(o, rest);
      assert forall x :: x in InsertByStart(o, rest) ==> x in multiset{o} + multiset(rest);
      SeparateFirst(s[0], InsertByStart(o, rest));
    }
  }

  lemma SeparateRest(s: seq<Occurrence>)
    requires Separate(s) && s != []
    ensures Separate(s[1..]) && s[0].range.start < s[0].range.end
    ensures forall x :: x in s[1..] ==> x.range.end <= s[0].range.start || s[0].range.end <= x.range.start
  {
    assert forall i :: 0 <= i < |s| - 1 ==> s[1..][i] == s[i + 1];
  }

  lemma SeparateFirst(o: Occurrence, s: seq<Occurrence>)
    requires Separate(s) && o.range.start < o.range.end
    requires forall x :: x in s ==> x.range.end <= o.range.start || o.range.end <= x.range.start
    ensures Separate([o] + s)
  {
    var r := [o] + s;
    assert forall i :: 0 < i < |r| ==> r[i] == s[i - 1];
  }

  lemma {:induction false} OrderSeparates(s: seq<Occurrence>)
    requires Separate(s)
    ensures Separate(InReadingOrder(s))
    decreases |s|
  {
    hide Separate;
    if s != [] {
      var rest := s[1..];
      SeparateRest(s);
      OrderSeparates(rest);
      assert forall x :: x in InReadingOrder(rest) ==> x in multiset(rest);
      InsertSeparate(s[0], InReadingOrder(rest));
    }
  }

  /** For attribute lines and counter references that do not overlap, in whatever order they are
      given, the built environment answers every question as replaying the visible events does. */
  lemma BuildAnswers(lines: seq<Occurrence>, counters: seq<Occurrence>, rules: Rules, entries: seq<Entry>, name: Text,
      position: Position)
    requires Separate(lines + counters)
    ensures var s, external := InReadingOrder(lines + counters), Folded(entries);
      var env, n, v := Built(s, rules, external), Canonical(name), VisibleEvents(s, |s|, position);
      && EndsAscend(s) && InBounds(env, HistoryOf(env, n)) && Ascending(env, HistoryOf(env, n))
      && (forall i :: 0 <= i < |s| ==> (i < v <==> Earlier(Position(s[i].range.end, i), position)))
      && (match Resolve(env, name, position)
          case Some(r) => Some(r.value) == if n in external then Some(Ok(external[n]))
            else Answer(KnownAfter(s, rules, external, v, n))
          case None => n !in external && KnownAfter(s, rules, external, v, n) == Untouched)
  {
    hide InReadingOrder, Separate, EndsAscend, Built, Resolve, KnownAfter, Folded, InBounds, Ascending, Earlier,
      VisibleEvents, HistoryOf, Canonical;
    var s := InReadingOrder(lines + counters);
    OrderSeparates(lines + counters);
    ReadingOrderAscends(lines + counters);
    SeparateEnds(s);
    ResolveIsReplay(s, rules, Folded(entries), name, position);
    VisibleEventsFirst(s, |s|, position);
  }

  lemma AnswerReported(r: Option<Resolved>)
    ensures r.Some? ==> Answer(Reported(r.value.value)) == Some(r.value.value)
  {
  }

  // ---------------------------------------------------------------- all values at a position

  /** The last position at an offset. */
  function EndOf(offset: nat): Position { Position(offset, MAX_COUNT) }

  /** The names with a value at an offset. */
  ghost function ValuesAt(env: Environment, offset: nat): map<Text, Text>
    requires forall n :: n in env.histories ==> Canonical(n) == n && InBounds(env, HistoryOf(env, n))
  {
    map n | n in env.histories.Keys + env.external.Keys && Effective(env, n, offset).Some? ::
      Effective(env, n, offset).value
  }

  /** The value of a canonical name at an offset: the external one, else what resolves. */
  function Effective(env: Environment, n: Text, offset: nat): Option<Text>
    requires n in env.histories ==> Canonical(n) == n && InBounds(env, HistoryOf(env, n))
  {
    if n in env.external then env.external[n]
    else if n !in env.histories then None
    else
      match Resolve(env, n, EndOf(offset))
      case None => None
      case Some(r) => if r.value.Ok? then r.value.value else None
  }

  /** Collects the values of all names with a history, then those of the external attributes. */
  method CollectValues(env: Environment, offset: nat) returns (values: map<Text, Text>)
    requires forall n :: n in env.histories ==>
      Canonical(n) == n && InBounds(env, HistoryOf(env, n)) && Ascending(env, HistoryOf(env, n))
    ensures values == ValuesAt(env, offset)
  {
    hide InBounds, Ascending, Resolve, HistoryOf, Canonical;
    values := map[];
    var names := env.histories.Keys;
    while names != {}
      invariant names <= env.histories.Keys
      invariant forall n :: n in values <==> n in env.histories && n !in names && Looked(env, n, offset).Some?
      invariant forall n :: n in values ==> values[n] == Looked(env, n, offset).value
      decreases names
    {
      var n :| n in names;
      var r := ResolveAtEvent(env, n, EndOf(offset));
      if r.Some? && r.value.value.Ok? && r.value.value.value.Some? {
        values := values[n := r.value.value.value.value];
      }
      names := names - {n};
    }
    var overrides := map n | n in env.external && env.external[n].Some? :: env.external[n].value;
    LookedExternal(env, offset);
    values := values + overrides;
  }

  /** What resolves for a name, whether external or not. */
  function Looked(env: Environment, n: Text, offset: nat): Option<Text>
    requires n in env.histories ==> InBounds(env, HistoryOf(env, Canonical(n)))
  {
    if n !in env.histories then None
    else
      match Resolve(env, n, EndOf(offset))
      case None => None
      case Some(r) => if r.value.Ok? then r.value.value else None
  }

  lemma LookedExternal(env: Environment, offset: nat)
    requires forall n :: n in env.histories ==> Canonical(n) == n && InBounds(env, HistoryOf(env, n))
    ensures forall n :: n in env.histories ==> Looked(env, n, offset) == Effective(env, n, offset)
  {
    hide InBounds, VisibleCount;
  }

  /** Every history of a built environment belongs to a folded name and is in order. */
  lemma HistoriesOk(s: seq<Occurrence>, rules: Rules, external: External)
    requires EndsAscend(s)
    ensures var env := Built(s, rules, external);
      forall n :: n in env.histories ==>
        Canonical(n) == n && InBounds(env, HistoryOf(env, n)) && Ascending(env, HistoryOf(env, n))
  {
    hide BuiltFrom, Apply, Indexed, Canonical, InBounds, Ascending, HistoryOf, EndsAscend;
    var env := Built(s, rules, external);
    forall n | n in env.histories
      ensures Canonical(n) == n && InBounds(env, HistoryOf(env, n)) && Ascending(env, HistoryOf(env, n)) {
      BuiltIs(s, rules, external, n);
      IndexedAscends(s, rules, external, env, n);
      TouchedName(s, rules, external, env, n);
      var e := Touching(s, n, |s|)[0];
      TouchingBelow(s, n, |s|);
      CanonicalTwice(s[e].name);
    }
  }

  lemma TouchedName(s: seq<Occurrence>, rules: Rules, external: External, env: Environment, n: Text)
    requires Indexed(s, rules, external, |s|, env, n)
    ensures n in env.histories <==> n !in external && Touching(s, n, |s|) != []
  {
    hide BindingOf, Entries, InBounds;
    BindingsAt(s, rules, external, n, |s|);
  }

  /** One name: its value at an offset is the one that replay of the visible events leaves. */
  lemma EffectiveIsReplay(s: seq<Occurrence>, rules: Rules, external: External, n: Text, offset: nat)
    requires EndsAscend(s)
    ensures var env, v := Built(s, rules, external), VisibleEvents(s, |s|, EndOf(offset));
      && (n in env.histories ==> Canonical(n) == n && InBounds(env, HistoryOf(env, n)))
      && env.external == external
      && var st := Replay(s, rules, external, v);
         Effective(env, n, offset) == if n in st.values then Some(st.values[n]) else None
  {
    hide BuiltFrom, Apply, Indexed, Canonical, InBounds, Ascending, HistoryOf, EndsAscend, VisibleEvents,
      Replay, Resolve;
    var env, v := Built(s, rules, external), VisibleEvents(s, |s|, EndOf(offset));
    HistoriesOk(s, rules, external);
    BuiltIs(s, rules, external, n);
    ReplayKeeps(s, rules, external, v);
    TouchedName(s, rules, external, env, n);
    if n !in external {
      if n in env.histories {
        ResolveIsReplay(s, rules, external, n, EndOf(offset));
      } else {
        TouchingPrefix(s, n, v, |s|);
        KnownFromLast(s, rules, external, v, n);
      }
    }
  }

  /** The values at any offset are those that replaying exactly the visible events leaves; past
      the last event they are the final values. */
  lemma ValuesAreReplay(s: seq<Occurrence>, rules: Rules, external: External, offset: nat)
    requires EndsAscend(s)
    ensures var env := Built(s, rules, external);
      && (forall n :: n in env.histories ==> Canonical(n) == n && InBounds(env, HistoryOf(env, n)))
      && ValuesAt(env, offset) == Replay(s, rules, external, VisibleEvents(s, |s|, EndOf(offset))).values
      && (|s| <= MAX_COUNT && (forall i :: 0 <= i < |s| ==> s[i].range.end <= offset) ==>
         ValuesAt(env, offset) == env.finalValues)
  {
    hide BuiltFrom, Apply, Indexed, Canonical, InBounds, Ascending, HistoryOf, EndsAscend, VisibleEvents,
      Replay, Effective;
    var env, v := Built(s, rules, external), VisibleEvents(s, |s|, EndOf(offset));
    HistoriesOk(s, rules, external);
    var replayed, found := Replay(s, rules, external, v).values, ValuesAt(env, offset);
    forall n | true ensures (n in found <==> n in replayed) && (n in found ==> found[n] == replayed[n]) {
      EffectiveIsReplay(s, rules, external, n, offset);
      KeysAreEnough(env, n, offset);
    }
    assert found == replayed;
    BuiltFinal(s, rules, external);
    if |s| <= MAX_COUNT && forall i :: 0 <= i < |s| ==> s[i].range.end <= offset {
      AllVisible(s, |s|, offset);
    }
  }

  lemma KeysAreEnough(env: Environment, n: Text, offset: nat)
    requires n in env.histories ==> Canonical(n) == n && InBounds(env, HistoryOf(env, n))
    ensures Effective(env, n, offset).Some? ==> n in env.histories.Keys + env.external.Keys
  {
  }

  lemma BuiltFinal(s: seq<Occurrence>, rules: Rules, external: External)
    ensures Built(s, rules, external).finalValues == Replay(s, rules, external, |s|).values
  {
    hide BuiltFrom, Replay, Indexed;
    BuiltIs(s, rules, external, []);
  }

  lemma AllVisible(s: seq<Occurrence>, k: nat, offset: nat)
    requires k <= |s| <= MAX_COUNT && forall i :: 0 <= i < |s| ==> s[i].range.end <= offset
    ensures VisibleEvents(s, k, EndOf(offset)) == k
  {
  }
}
