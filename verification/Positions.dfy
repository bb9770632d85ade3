/** Conversion between byte offsets and line positions, in UTF-8 and UTF-16 units. */
module Positions {
  import opened Text
  import opened Source

  datatype Encoding = Utf8 | Utf16

  datatype Position = Position(line: nat, character: nat)

  datatype PositionError =
    | OffsetOutOfBounds(offset: nat, sourceLength: nat)
    | InvalidCharBoundary(offset: nat)
    | InsideLineEnding(offset: nat)
    | LineOutOfBounds(line: nat, lineCount: nat)
    | CharacterOutOfBounds(position: Position, lineLength: nat)
    | InvalidCharacterBoundary(position: Position)

  datatype Outcome<+T> = Ok(value: T) | Err(error: PositionError)

  ghost predicate Ready(v: Text, lines: seq<Line>) { Valid(v) && LinesOk(v, lines, 0) }

  // ---------------------------------------------------------------- UTF-16 units

  /** The UTF-16 units of the character that starts with this byte. */
  function CharUnits(c: char): nat { if CharLen(c) == 4 then 2 else 1 }

  /** The UTF-16 units of the characters that start in `v[a..b]`. */
  function Units(v: Text, a: nat, b: nat): nat
    requires b <= |v|
  {
    if b <= a then 0 else Units(v, a, b - 1) + if Continuation(v[b - 1]) then 0 else CharUnits(v[b - 1])
  }

  lemma {:induction false} UnitsAdd(v: Text, a: nat, b: nat, c: nat)
    requires a <= b <= c <= |v|
    ensures Units(v, a, c) == Units(v, a, b) + Units(v, b, c)
    decreases c
  {
    if b < c {
      UnitsAdd(v, a, b, c - 1);
    }
  }

  lemma {:induction false} UnitsOfSlice(v: Text, start: nat, end: nat, k: nat)
    requires start <= end <= |v| && k <= end - start
    ensures Units(v[start..end], 0, k) == Units(v, start, start + k)
    decreases k
  {
    if k > 0 {
      UnitsOfSlice(v, start, end, k - 1);
    }
  }

  lemma {:induction false} ContinuationUnits(v: Text, a: nat, b: nat)
    requires a <= b <= |v| && forall j :: a <= j < b ==> Continuation(v[j])
    ensures Units(v, a, b) == 0
    decreases b
  {
    if a < b {
      ContinuationUnits(v, a, b - 1);
    }
  }

  lemma UnitsOfChar(v: Text, i: nat)
    requires Valid(v) && i < |v| && Boundary(v, i)
    ensures Units(v, 0, Next(v, i)) == Units(v, 0, i) + CharUnits(v[i])
    ensures forall j :: i < j < Next(v, i) ==> !Boundary(v, j)
  {
    NextIsNext(v, i);
    UnitsAdd(v, 0, i, Next(v, i));
    UnitsAdd(v, i, i + 1, Next(v, i));
    ContinuationUnits(v, i + 1, Next(v, i));
  }

  lemma UnitsGrow(v: Text, i: nat, j: nat)
    requires Valid(v) && Boundary(v, i) && i < j <= |v|
    ensures Units(v, 0, i) < Units(v, 0, j)
  {
    UnitsAdd(v, 0, i, j);
    UnitsAdd(v, i, i + 1, j);
  }

  datatype UnitSearch = Found(at: nat) | Inside | Beyond(units: nat)

  /** Walks the characters from `i`, before which there are `units` units, to the requested one. */
  function Search(c: Text, i: nat, units: nat, requested: nat): UnitSearch
    requires Valid(c) && i <= |c| && Boundary(c, i)
    decreases |c| - i
  {
    if units == requested then Found(i)
    else if i == |c| then Beyond(units)
    else if requested < units + CharUnits(c[i]) then Inside
    else Search(c, Next(c, i), units + CharUnits(c[i]), requested)
  }

  method Utf16CharacterToByte(c: Text, requested: nat) returns (r: UnitSearch)
    requires Valid(c)
    ensures r == Search(c, 0, 0, requested)
  {
    var units: nat := 0;
    var i: nat := 0;
    while i < |c|
      invariant i <= |c| && Boundary(c, i)
      invariant Search(c, 0, 0, requested) == Search(c, i, units, requested)
    {
      if units == requested {
        return Found(i);
      }
      var after := units + CharUnits(c[i]);
      if requested < after {
        return Inside;
      }
      units := after;
      i := Next(c, i);
    }
    r := if units == requested then Found(|c|) else Beyond(units);
  }

  /** The walk ends at `j` exactly when `j` is the boundary after the requested units. */
  lemma {:induction false} SearchIs(c: Text, i: nat, requested: nat, j: nat)
    requires Valid(c) && i <= |c| && Boundary(c, i) && Units(c, 0, i) <= requested
    ensures var s := Search(c, i, Units(c, 0, i), requested);
      && (s == Found(j) <==> i <= j <= |c| && Boundary(c, j) && Units(c, 0, j) == requested)
      && (s.Beyond? <==> Units(c, 0, |c|) < requested) && (s.Beyond? ==> s.units == Units(c, 0, |c|))
    decreases |c| - i
  {
    if Units(c, 0, i) == requested {
      if i < |c| {
        UnitsGrow(c, i, |c|);
      }
      if i < j <= |c| {
        UnitsGrow(c, i, j);
      }
    } else if i < |c| {
      var next := Next(c, i);
      UnitsOfChar(c, i);
      if requested < Units(c, 0, next) {
        if next < |c| {
          UnitsGrow(c, next, |c|);
        }
        if next < j <= |c| {
          UnitsGrow(c, next, j);
        }
      } else {
        SearchIs(c, next, requested, j);
      }
    }
  }

  // ---------------------------------------------------------------- lines

  /** Lines that end, with their ending, at or before an offset. */
  predicate Before(l: Line, offset: nat) {
    l.full.end <= offset && l.full.end != l.content.end
  }

  /** The first line from `i` that is not before the offset. */
  function LineAt(lines: seq<Line>, offset: nat, i: nat): (r: nat)
    requires i <= |lines|
    ensures i <= r <= |lines| && (r < |lines| ==> !Before(lines[r], offset))
    ensures forall j :: i <= j < r ==> Before(lines[j], offset)
    decreases |lines| - i
  {
    if i < |lines| && Before(lines[i], offset) then LineAt(lines, offset, i + 1) else i
  }

  ghost predicate InLine(v: Text, lines: seq<Line>, offset: nat, i: nat) {
    i < |lines| && lines[i].content.start <= offset <= lines[i].content.end
  }

  lemma {:induction false} LinesAscend(v: Text, lines: seq<Line>, i: nat, j: nat)
    requires Ready(v, lines) && i < j < |lines|
    ensures !lines[i].kind.NoEnding? && lines[i].full.end <= lines[j].full.start
    decreases j
  {
    LinesAt(v, lines, 0, i);
    LinesAt(v, lines, 0, j - 1);
    LastIsBare(v, lines, 0, i);
    if i < j - 1 {
      LinesAscend(v, lines, i, j - 1);
    }
  }

  /** An offset in the text has a line, which starts at or before it. */
  lemma LineAtFacts(v: Text, lines: seq<Line>, offset: nat)
    requires Ready(v, lines) && offset <= |v|
    ensures var k := LineAt(lines, offset, 0);
      && k < |lines| && lines[k].content.start <= offset <= lines[k].full.end
      && LineOk(v, lines[k])
  {
    hide LinesOk, LineOk, Valid;
    var k := LineAt(lines, offset, 0);
    LastLine(v, lines);
    assert !Before(lines[|lines| - 1], offset);
    if k == |lines| {
      assert false;
    } else {
      LineParts(v, lines, k);
      if k > 0 {
        LineParts(v, lines, k - 1);
      }
    }
  }

  lemma LastLine(v: Text, lines: seq<Line>)
    requires Ready(v, lines)
    ensures |lines| > 0 && lines[|lines| - 1].content.end == lines[|lines| - 1].full.end == |v|
  {
    LinesAt(v, lines, 0, |lines| - 1);
    LastIsBare(v, lines, 0, |lines| - 1);
  }

  lemma LineParts(v: Text, lines: seq<Line>, i: nat)
    requires Ready(v, lines) && i < |lines|
    ensures var l := lines[i];
      && LineOk(v, l) && l.full.start == l.content.start <= l.content.end <= l.full.end <= |v|
      && (i == 0 ==> l.full.start == 0) && (i + 1 < |lines| ==> l.full.end == lines[i + 1].full.start)
      && (l.full.end == l.content.end <==> i + 1 == |lines|)
      && Boundary(v, l.content.start) && Boundary(v, l.content.end)
  {
    LinesAt(v, lines, 0, i);
    LastIsBare(v, lines, 0, i);
  }

  lemma LineAtIs(v: Text, lines: seq<Line>, offset: nat, i: nat)
    requires Ready(v, lines) && InLine(v, lines, offset, i)
    ensures LineAt(lines, offset, 0) == i
  {
    hide LinesOk, LineOk, Valid;
    LineParts(v, lines, i);
    var k := LineAt(lines, offset, 0);
    if k < i {
      LineParts(v, lines, k);
      LinesAscend(v, lines, k, i);
    }
  }

  /** Binary search for the first line that is not before the offset. */
  method PartitionPoint(v: Text, lines: seq<Line>, offset: nat) returns (count: nat)
    requires Ready(v, lines)
    ensures count == LineAt(lines, offset, 0)
  {
    hide LinesOk, Valid, LineOk;
    var low, high := 0, |lines|;
    while low < high
      invariant 0 <= low <= LineAt(lines, offset, 0) <= high <= |lines|
    {
      var mid := (low + high) / 2;
      if Before(lines[mid], offset) {
        BeforeIsPrefix(v, lines, offset, mid);
        low := mid + 1;
      } else {
        high := mid;
      }
    }
    count := low;
  }

  lemma BeforeIsPrefix(v: Text, lines: seq<Line>, offset: nat, i: nat)
    requires Ready(v, lines) && i < |lines| && Before(lines[i], offset)
    ensures i < LineAt(lines, offset, 0)
  {
    hide LinesOk, Valid, LineOk;
    var k := LineAt(lines, offset, 0);
    if k < i {
      LinesAscend(v, lines, k, i);
      LineParts(v, lines, k);
      LineParts(v, lines, i);
    }
  }

  // ---------------------------------------------------------------- the two conversions

  function CharacterAt(v: Text, start: nat, offset: nat, e: Encoding): nat
    requires start <= offset <= |v|
  {
    if e.Utf8? then offset - start else Units(v, start, offset)
  }

  function PositionOf(v: Text, lines: seq<Line>, offset: nat, e: Encoding): Outcome<Position>
    requires Ready(v, lines)
  {
    if |v| < offset then Err(OffsetOutOfBounds(offset, |v|))
    else if !Boundary(v, offset) then Err(InvalidCharBoundary(offset))
    else
      LineAtFacts(v, lines, offset);
      var k := LineAt(lines, offset, 0);
      if lines[k].content.end < offset then Err(InsideLineEnding(offset))
      else Ok(Position(k, CharacterAt(v, lines[k].content.start, offset, e)))
  }

  function OffsetOf(v: Text, lines: seq<Line>, p: Position, e: Encoding): Outcome<nat>
    requires Ready(v, lines)
  {
    if |lines| <= p.line then Err(LineOutOfBounds(p.line, |lines|))
    else
      LineParts(v, lines, p.line);
      var l := lines[p.line];
      SliceIsValid(v, l.content.start, l.content.end);
      var content := v[l.content.start..l.content.end];
      match e
      case Utf8 =>
        if |content| < p.character then Err(CharacterOutOfBounds(p, |content|))
        else if !Boundary(content, p.character) then Err(InvalidCharacterBoundary(p))
        else Ok(l.content.start + p.character)
      case Utf16 =>
        match Search(content, 0, 0, p.character)
        case Found(at) => Ok(l.content.start + at)
        case Inside => Err(InvalidCharacterBoundary(p))
        case Beyond(units) => Err(CharacterOutOfBounds(p, units))
  }

  method OffsetToPosition(v: Text, lines: seq<Line>, offset: nat, e: Encoding) returns (r: Outcome<Position>)
    requires Ready(v, lines)
    ensures r == PositionOf(v, lines, offset, e)
  {
    hide LinesOk, LineOk;
    if |v| < offset {
      return Err(OffsetOutOfBounds(offset, |v|));
    }
    if !Boundary(v, offset) {
      return Err(InvalidCharBoundary(offset));
    }
    var k := PartitionPoint(v, lines, offset);
    LineAtFacts(v, lines, offset);
    if lines[k].content.end < offset {
      return Err(InsideLineEnding(offset));
    }
    r := Ok(Position(k, CharacterAt(v, lines[k].content.start, offset, e)));
  }

  method PositionToOffset(v: Text, lines: seq<Line>, p: Position, e: Encoding) returns (r: Outcome<nat>)
    requires Ready(v, lines)
    ensures r == OffsetOf(v, lines, p, e)
  {
    hide LinesOk, LineOk;
    if |lines| <= p.line {
      return Err(LineOutOfBounds(p.line, |lines|));
    }
    LineParts(v, lines, p.line);
    var l := lines[p.line];
    SliceIsValid(v, l.content.start, l.content.end);
    var content := v[l.content.start..l.content.end];
    match e {
      case Utf8 =>
        if |content| < p.character {
          return Err(CharacterOutOfBounds(p, |content|));
        }
        if !Boundary(content, p.character) {
          return Err(InvalidCharacterBoundary(p));
        }
        r := Ok(l.content.start + p.character);
      case Utf16 =>
        var s := Utf16CharacterToByte(content, p.character);
        match s {
          case Found(at) => r := Ok(l.content.start + at);
          case Inside => r := Err(InvalidCharacterBoundary(p));
          case Beyond(units) => r := Err(CharacterOutOfBounds(p, units));
        }
    }
  }

  // ---------------------------------------------------------------- what they mean

  /** `offset` is a character boundary in line `p.line`, with `p.character` units before it. */
  ghost predicate Denotes(v: Text, lines: seq<Line>, p: Position, offset: nat, e: Encoding) {
    && InLine(v, lines, offset, p.line) && offset <= |v| && Boundary(v, offset)
    && p.character == CharacterAt(v, lines[p.line].content.start, offset, e)
  }

  lemma PositionOfIff(v: Text, lines: seq<Line>, offset: nat, e: Encoding, p: Position)
    requires Ready(v, lines)
    ensures PositionOf(v, lines, offset, e) == Ok(p) <==> Denotes(v, lines, p, offset, e)
  {
    hide LinesOk, LineOk, Valid, CharacterAt;
    if offset <= |v| {
      LineAtFacts(v, lines, offset);
    }
    if InLine(v, lines, offset, p.line) {
      LineAtIs(v, lines, offset, p.line);
    }
  }

  lemma OffsetOfIff(v: Text, lines: seq<Line>, p: Position, e: Encoding, offset: nat)
    requires Ready(v, lines)
    ensures OffsetOf(v, lines, p, e) == Ok(offset) <==> Denotes(v, lines, p, offset, e)
  {
    hide LinesOk, LineOk, Valid;
    if p.line < |lines| {
      LineParts(v, lines, p.line);
      var l := lines[p.line];
      SliceIsValid(v, l.content.start, l.content.end);
      var content := v[l.content.start..l.content.end];
      if l.content.start <= offset {
        var j: nat := offset - l.content.start;
        SearchIs(content, 0, p.character, j);
        if j <= |content| {
          UnitsOfSlice(v, l.content.start, l.content.end, j);
        }
      }
    }
  }

  /** The conversions undo each other. */
  lemma RoundTrip(v: Text, lines: seq<Line>, p: Position, offset: nat, e: Encoding)
    requires Ready(v, lines)
    ensures PositionOf(v, lines, offset, e) == Ok(p) <==> OffsetOf(v, lines, p, e) == Ok(offset)
  {
    hide *;
    PositionOfIff(v, lines, offset, e, p);
    OffsetOfIff(v, lines, p, e, offset);
  }

  /** The offsets between a carriage return and its line feed. */
  predicate SplitsEnding(v: Text, offset: nat) {
    0 < offset < |v| && v[offset - 1] == '\r' && v[offset] == '\n'
  }

  /** Each offset has a position, unless it is out of bounds, inside a character or inside a line ending. */
  lemma OffsetsAccepted(v: Text, lines: seq<Line>, offset: nat, e: Encoding)
    requires Ready(v, lines)
    ensures var r := PositionOf(v, lines, offset, e);
      && (r == Err(OffsetOutOfBounds(offset, |v|)) <==> |v| < offset)
      && (r == Err(InvalidCharBoundary(offset)) <==> offset <= |v| && !Boundary(v, offset))
      && (r == Err(InsideLineEnding(offset)) <==> SplitsEnding(v, offset))
      && (r.Ok? <==> offset <= |v| && Boundary(v, offset) && !SplitsEnding(v, offset))
  {
    hide LinesOk, Valid;
    if offset <= |v| {
      LineAtFacts(v, lines, offset);
      var l := lines[LineAt(lines, offset, 0)];
      LineParts(v, lines, LineAt(lines, offset, 0));
      assert l.content.end < offset ==> SplitsEnding(v, offset);
      if SplitsEnding(v, offset) {
        assert EndingAt(v, offset - 1).CrLf?;
        if l.content.start == offset {
          LineStartsAfter(v, lines, LineAt(lines, offset, 0));
        }
      }
    }
  }

  lemma LineStartsAfter(v: Text, lines: seq<Line>, i: nat)
    requires Ready(v, lines) && i < |lines| && lines[i].full.start > 0
    ensures lines[i].full.start <= |v| && v[lines[i].full.start - 1] == '\n'
  {
    LineParts(v, lines, i);
    if i > 0 {
      LineParts(v, lines, i - 1);
    }
  }

  /** Each position has an offset, unless its line or character is out of bounds or it is inside a character. */
  lemma PositionsAccepted(v: Text, lines: seq<Line>, p: Position, e: Encoding)
    requires Ready(v, lines)
    ensures var r := OffsetOf(v, lines, p, e);
      if |lines| <= p.line then r == Err(LineOutOfBounds(p.line, |lines|))
      else
        var l := lines[p.line];
        && l.content.end <= |v|
        && (var length := CharacterAt(v, l.content.start, l.content.end, e);
            && (r == Err(CharacterOutOfBounds(p, length)) <==> length < p.character)
            && (r == Err(InvalidCharacterBoundary(p)) <==>
               p.character <= length && forall o :: !Denotes(v, lines, p, o, e)))
  {
    hide LinesOk, LineOk, Valid;
    if p.line < |lines| {
      LineParts(v, lines, p.line);
      var l := lines[p.line];
      SliceIsValid(v, l.content.start, l.content.end);
      var content := v[l.content.start..l.content.end];
      SearchIs(content, 0, p.character, 0);
      UnitsOfSlice(v, l.content.start, l.content.end, |content|);
      forall o: nat ensures OffsetOf(v, lines, p, e) == Ok(o) <==> Denotes(v, lines, p, o, e) {
        OffsetOfIff(v, lines, p, e, o);
      }
    }
  }

  /** A text has at most one line more than it has bytes, and that many exactly when it holds
      only line feeds: a line number fits where an offset does, a line count may not. */
  lemma {:induction false} LineCountFits(v: Text, lines: seq<Line>, from: nat)
    requires LinesOk(v, lines, from)
    ensures from <= |v| && |lines| <= |v| - from + 1
    ensures |lines| == |v| - from + 1 <==> forall j :: from <= j < |v| ==> v[j] == '\n'
    decreases |lines|
  {
    var l := lines[0];
    if !l.kind.NoEnding? {
      LineCountFits(v, lines[1..], l.full.end);
      forall j | from <= j < l.content.end ensures v[j] != '\n' {
        assert EndingAt(v, j).NoEnding?;
      }
      assert EndingAt(v, l.content.end) == l.kind;
      assert v[l.full.end - 1] == '\n';
      assert l.kind.CrLf? ==> v[l.content.end] == '\r';
      if from < l.content.end {
        assert v[from] != '\n';
      }
    } else {
      assert |lines| == 1;
      if from < |v| {
        assert EndingAt(v, from).NoEnding?;
      }
    }
  }

  /** The greatest 32-bit number, and the greatest length of a source. */
  const GREATEST := 0xFFFF_FFFF

  /** The line count of a source that is not too long fits 32 bits, unless it has the greatest
      length and holds nothing but line feeds. */
  lemma LineCountOverflows(v: Text)
    requires |v| <= GREATEST
    ensures GREATEST < |Lines(v)| <==> |v| == GREATEST && forall j :: 0 <= j < |v| ==> v[j] == '\n'
  {
    hide Lines;
    LinesAreOk(v);
    LineCountFits(v, Lines(v), 0);
  }

  lemma LinesAreOk(v: Text)
    ensures LinesOk(v, Lines(v), 0)
  {
    LinesFromOk(v, 0, 0);
  }

  /** Such a source is well formed. */
  lemma LineFeedsOverflow()
    ensures var v := seq(GREATEST, _ => '\n'); Valid(v) && |v| == GREATEST && |Lines(v)| == GREATEST + 1
  {
    hide Lines;
    var v := seq(GREATEST, _ => '\n');
    forall i | 0 <= i < |v| ensures UnitOk(v, i) {
      assert v[i] == '\n';
    }
    LinesAreOk(v);
    LineCountFits(v, Lines(v), 0);
  }
}
