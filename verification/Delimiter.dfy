/** Where the body of a delimited block ends. */
module Delimiter {
  import opened Text
  import opened BlockGrammar
  import opened BlockModel

  /** The lines of a body are those from the opener to `contentEnd`; parsing goes on at `next`. */
  datatype Body = Body(contentEnd: nat, next: nat, closed: bool)

  function FirstEqual(c: Context, delimiter: Text, i: nat, end: nat): (r: Option<nat>)
    requires i <= end <= LineCount(c)
    ensures r.Some? ==> i <= r.value < end && Content(c, r.value) == delimiter
    decreases end - i
  {
    if i == end then None else if Content(c, i) == delimiter then Some(i) else FirstEqual(c, delimiter, i + 1, end)
  }

  function FirstHeading(c: Context, i: nat, end: nat): (r: Option<nat>)
    requires i <= end <= LineCount(c)
    ensures r.Some? ==> i <= r.value < end && Starts(Content(c, r.value), "=")
    decreases end - i
  {
    if i == end then None else if Starts(Content(c, i), "=") then Some(i) else FirstHeading(c, i + 1, end)
  }

  /** A block runs to its closing delimiter; without one, to the first line that looks like
      a heading; without that, to the end of what is being parsed. */
  function BodyOf(c: Context, opener: nat, delimiter: Text, end: nat): (r: Body)
    requires opener < end <= LineCount(c)
    ensures opener < r.contentEnd <= r.next <= end && opener < r.next
    ensures r.next == if r.closed then r.contentEnd + 1 else r.contentEnd
    ensures r.closed <==> FirstEqual(c, delimiter, opener + 1, end).Some?
    ensures r.closed ==> Content(c, r.contentEnd) == delimiter
    ensures !r.closed && r.contentEnd < end ==> Starts(Content(c, r.contentEnd), "=")
  {
    match FirstEqual(c, delimiter, opener + 1, end)
    case Some(closer) => Body(closer, closer + 1, true)
    case None =>
      match FirstHeading(c, opener + 1, end)
      case Some(heading) => Body(heading, heading, false)
      case None => Body(end, end, false)
  }

  /** The body holds no line equal to the delimiter; when it is unclosed, nothing up to
      `end` is, and no line of the body looks like a heading. */
  lemma {:induction false} BodyIsFirst(c: Context, opener: nat, delimiter: Text, end: nat)
    requires opener < end <= LineCount(c)
    ensures var b := BodyOf(c, opener, delimiter, end);
      && (forall j :: opener < j < (if b.closed then b.contentEnd else end) ==> Content(c, j) != delimiter)
      && (!b.closed ==> forall j :: opener < j < b.contentEnd ==> !Starts(Content(c, j), "="))
  {
    hide Content, Ready, Starts, FirstEqual, FirstHeading;
    EqualIsFirst(c, delimiter, opener + 1, end);
    HeadingIsFirst(c, opener + 1, end);
  }

  lemma {:induction false} EqualIsFirst(c: Context, delimiter: Text, i: nat, end: nat)
    requires i <= end <= LineCount(c)
    ensures var r := FirstEqual(c, delimiter, i, end);
      forall j :: i <= j < (if r.Some? then r.value else end) ==> Content(c, j) != delimiter
    decreases end - i
  {
    hide Content, Ready;
    if i < end && Content(c, i) != delimiter {
      EqualIsFirst(c, delimiter, i + 1, end);
    }
  }

  lemma {:induction false} HeadingIsFirst(c: Context, i: nat, end: nat)
    requires i <= end <= LineCount(c)
    ensures var r := FirstHeading(c, i, end);
      forall j :: i <= j < (if r.Some? then r.value else end) ==> !Starts(Content(c, j), "=")
    decreases end - i
  {
    hide Content, Ready, Starts;
    if i < end && !Starts(Content(c, i), "=") {
      HeadingIsFirst(c, i + 1, end);
    }
  }

  /** One scan looks for the closer and remembers the first heading it passes. */
  method FindBody(c: Context, opener: nat, delimiter: Text, end: nat) returns (r: Body)
    requires opener < end <= LineCount(c)
    ensures r == BodyOf(c, opener, delimiter, end)
  {
    hide Ready, Content, Starts;
    var closer: Option<nat> := None;
    var recovery: Option<nat> := None;
    var index := opener + 1;
    while index < end
      invariant opener < index <= end
      invariant FirstEqual(c, delimiter, opener + 1, end) == FirstEqual(c, delimiter, index, end)
      invariant FirstHeading(c, opener + 1, end) == if recovery.Some? then recovery else FirstHeading(c, index, end)
    {
      if Content(c, index) == delimiter {
        closer := Some(index);
        break;
      }
      if recovery.None? && Starts(Content(c, index), "=") {
        recovery := Some(index);
      }
      index := index + 1;
    }
    r := match closer
      case Some(at) => Body(at, at + 1, true)
      case None =>
        match recovery
        case Some(at) => Body(at, at, false)
        case None => Body(end, end, false);
  }
}
