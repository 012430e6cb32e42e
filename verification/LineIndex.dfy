/** Byte offsets to line and column (crates/findings/src/source.rs). */
module LineIndex {
  import opened Common
  import opened Sorting
  import opened Text

  type Byte = b: int | 0 <= b < 256

  const NEWLINE: Byte := 10

  /** A byte inside a character, after its first one. */
  predicate IsContinuation(b: Byte) {
    0x80 <= b < 0xC0
  }

  // ----- the index

  datatype Index = Index(starts: seq<nat>, text: seq<Byte>)

  /** The offsets at which lines start: zero, and one past every newline. */
  function Starts(text: seq<Byte>): (starts: seq<nat>)
    ensures starts != [] && forall i :: 0 <= i < |starts| ==> starts[i] <= |text|
  {
    if text == [] then [0]
    else
      var init := text[..|text| - 1];
      Starts(init) + if text[|text| - 1] == NEWLINE then [|text|] else []
  }

  method NewIndex(text: seq<Byte>) returns (index: Index)
    ensures index == Index(Starts(text), text)
  {
    var starts := [0];
    for i := 0 to |text|
      invariant starts == Starts(text[..i])
    {
      assert text[..i + 1][..i] == text[..i];
      if text[i] == NEWLINE {
        starts := starts + [i + 1];
      }
    }
    assert text[..|text|] == text;
    index := Index(starts, text);
  }

  /** How many starts a scan finds at or before an offset. */
  function StartsUpTo(starts: seq<nat>, offset: nat): nat {
    if starts == [] then 0
    else StartsUpTo(starts[..|starts| - 1], offset) + if starts[|starts| - 1] <= offset then 1 else 0
  }

  ghost predicate Ascending(starts: seq<nat>) {
    forall i, j :: 0 <= i < j < |starts| ==> starts[i] < starts[j]
  }

  /** Binary search for the first start past an offset; it finds what a linear scan counts. */
  method PartitionPoint(starts: seq<nat>, offset: nat) returns (r: nat)
    requires Ascending(starts)
    ensures r == StartsUpTo(starts, offset) <= |starts|
    ensures forall i :: 0 <= i < |starts| ==> (starts[i] <= offset <==> i < r)
  {
    var low, high := 0, |starts|;
    while low < high
      invariant 0 <= low <= high <= |starts|
      invariant forall i :: 0 <= i < low ==> starts[i] <= offset
      invariant forall i :: high <= i < |starts| ==> starts[i] > offset
    {
      var mid := low + (high - low) / 2;
      if starts[mid] <= offset {
        low := mid + 1;
      } else {
        high := mid;
      }
    }
    r := low;
    ScanCounts(starts, offset, r);
  }

  lemma {:induction false} ScanCounts(starts: seq<nat>, offset: nat, r: nat)
    requires r <= |starts| && forall i :: 0 <= i < |starts| ==> (starts[i] <= offset <==> i < r)
    ensures StartsUpTo(starts, offset) == r
  {
    if starts != [] {
      var last := |starts| - 1;
      ScanCounts(starts[..last], offset, if r > last then last else r);
    }
  }

  /** `str::is_char_boundary`. */
  predicate IsBoundary(text: seq<Byte>, offset: nat) {
    offset == 0 || offset == |text| || (offset < |text| && !IsContinuation(text[offset]))
  }

  /** `chars().count()`: every character has one byte that is not a continuation. */
  function CharCount(text: seq<Byte>): nat {
    if text == [] then 0
    else CharCount(text[..|text| - 1]) + if IsContinuation(text[|text| - 1]) then 0 else 1
  }

  datatype Place = Place(line: nat, column: nat)

  /** The place at the end of a text: its last line, and the characters on it. */
  function EndOf(text: seq<Byte>): Place {
    var starts := Starts(text);
    Place(|starts|, CharCount(text[starts[|starts| - 1]..]) + 1)
  }

  /** The position of an offset: the end of the text before it. */
  function PositionIn(text: seq<Byte>, offset: nat): Option<Place> {
    if offset > |text| || !IsBoundary(text, offset) then None else Some(EndOf(text[..offset]))
  }

  const U32_MAX: nat := 0xFFFF_FFFF

  /** `as u32`. */
  function Truncated(n: nat): nat {
    n % (U32_MAX + 1)
  }

  /** `n as u32 + 1`. When the sum overflows, a build with overflow checks stops and any other wraps. */
  function CountedFromOne(n: nat, checked: bool): Option<nat> {
    if Truncated(n) < U32_MAX then Some(Truncated(n) + 1) else if checked then None else Some(0)
  }

  /** What asking for a position comes to; with overflow checks it may stop the program. */
  datatype Answer = NoPosition | Known(place: Place) | Overflow

  /** A place as it is reported. */
  function Reported(p: Place, checked: bool): Answer
    requires p.line > 0 && p.column > 0
  {
    match (CountedFromOne(p.line - 1, checked), CountedFromOne(p.column - 1, checked))
    case (Some(line), Some(column)) => Known(Place(line, column))
    case (_, _) => Overflow
  }

  method Position(index: Index, offset: nat, checked: bool) returns (r: Answer)
    requires index.starts == Starts(index.text)
    ensures r == match PositionIn(index.text, offset) case None => NoPosition case Some(p) => Reported(p, checked)
  {
    if offset > |index.text| || !IsBoundary(index.text, offset) {
      return NoPosition;
    }
    StartsAscend(index.text);
    var after := PartitionPoint(index.starts, offset);
    PlaceFound(index.text, offset, after);
    var line := after - 1;
    var column := CharCount(index.text[index.starts[line]..offset]);
    var shownLine, shownColumn := CountedFromOne(line, checked), CountedFromOne(column, checked);
    if shownLine.None? || shownColumn.None? {
      return Overflow;
    }
    r := Known(Place(shownLine.value, shownColumn.value));
  }

  lemma {:induction false} StartsAscend(text: seq<Byte>)
    ensures Ascending(Starts(text))
  {
    if text != [] {
      StartsAscend(text[..|text| - 1]);
    }
  }

  lemma {:induction false} StartsOfPrefix(text: seq<Byte>, offset: nat)
    requires offset <= |text|
    ensures Starts(text[..offset]) <= Starts(text)
    ensures forall i :: |Starts(text[..offset])| <= i < |Starts(text)| ==> Starts(text)[i] > offset
  {
    if offset < |text| {
      var init := text[..|text| - 1];
      StartsOfPrefix(init, offset);
      assert init[..offset] == text[..offset];
    } else {
      assert text[..offset] == text;
    }
  }

  lemma StartsBefore(text: seq<Byte>, offset: nat, after: nat)
    requires offset <= |text|
    requires after <= |Starts(text)| && forall i :: 0 <= i < |Starts(text)| ==> (Starts(text)[i] <= offset <==> i < after)
    ensures after == |Starts(text[..offset])| && Starts(text[..offset]) == Starts(text)[..after]
  {
    StartsOfPrefix(text, offset);
    var n := |Starts(text[..offset])|;
    assert Starts(text)[n - 1] == Starts(text[..offset])[n - 1] <= offset;
    assert n < |Starts(text)| ==> Starts(text)[n] > offset;
  }

  lemma PlaceFound(text: seq<Byte>, offset: nat, after: nat)
    requires offset <= |text|
    requires after <= |Starts(text)| && forall i :: 0 <= i < |Starts(text)| ==> (Starts(text)[i] <= offset <==> i < after)
    ensures 0 < after && Starts(text)[after - 1] <= offset
    ensures EndOf(text[..offset]) == Place(after, CharCount(text[Starts(text)[after - 1]..offset]) + 1)
  {
    StartsBefore(text, offset, after);
    var start := Starts(text)[after - 1];
    assert Starts(text[..offset])[after - 1] == start;
    assert text[start..offset] == text[..offset][start..];
  }

  // ----- UTF-8

  /** The bytes of one character (section 3 of RFC 3629). */
  function EncodeChar(c: char): (bytes: seq<Byte>)
    ensures |bytes| == Utf8Width(c)
    ensures !IsContinuation(bytes[0]) && forall b <- bytes[1..] :: IsContinuation(b)
    ensures NEWLINE in bytes <==> c == '\n'
  {
    var v := c as int;
    if v < 0x80 then [v]
    else if v < 0x800 then [0xC0 + v / 64, 0x80 + v % 64]
    else if v < 0x1_0000 then [0xE0 + v / 4096, 0x80 + v / 64 % 64, 0x80 + v % 64]
    else [0xF0 + v / 262144, 0x80 + v / 4096 % 64, 0x80 + v / 64 % 64, 0x80 + v % 64]
  }

  function Encode(s: string): (bytes: seq<Byte>)
    ensures |bytes| == Utf8Len(s)
  {
    if s == [] then [] else Encode(s[..|s| - 1]) + EncodeChar(s[|s| - 1])
  }

  lemma {:induction false} EncodeConcat(s: string, t: string)
    ensures Encode(s + t) == Encode(s) + Encode(t)
  {
    if t == [] {
      assert s + t == s;
    } else {
      EncodeConcat(s, t[..|t| - 1]);
      assert (s + t)[..|s + t| - 1] == s + t[..|t| - 1] && (s + t)[|s + t| - 1] == t[|t| - 1];
      Associative(Encode(s), Encode(t[..|t| - 1]), EncodeChar(t[|t| - 1]));
    }
  }

  lemma EncodePrefix(s: string, i: nat)
    requires i <= |s|
    ensures Utf8Len(s[..i]) <= Utf8Len(s) && Encode(s)[..Utf8Len(s[..i])] == Encode(s[..i])
  {
    assert s == s[..i] + s[i..];
    EncodeConcat(s[..i], s[i..]);
  }

  // ----- positions by reading characters

  /** Line and column after reading some characters, one at a time. */
  function PlaceAfter(s: string): Place {
    if s == [] then Place(1, 1)
    else
      var p := PlaceAfter(s[..|s| - 1]);
      if s[|s| - 1] == '\n' then Place(p.line + 1, 1) else Place(p.line, p.column + 1)
  }

  /** The lines are one more than the newlines read. */
  lemma {:induction false} LineCountsNewlines(s: string)
    ensures PlaceAfter(s).line == 1 + multiset(s)['\n']
  {
    if s != [] {
      LineCountsNewlines(s[..|s| - 1]);
      assert s == s[..|s| - 1] + [s[|s| - 1]];
    }
  }

  /** The characters read since the last newline. */
  function LastLine(s: string): string {
    match SplitLast(s, '\n')
    case None => s
    case Some((_, last)) => last
  }

  /** The columns are one more than those. */
  lemma {:induction false} ColumnCountsCharacters(s: string)
    ensures PlaceAfter(s).column == 1 + |LastLine(s)|
  {
    if s != [] {
      ColumnCountsCharacters(s[..|s| - 1]);
    }
  }

  lemma {:induction false} CharCountConcat(a: seq<Byte>, b: seq<Byte>)
    ensures CharCount(a + b) == CharCount(a) + CharCount(b)
  {
    if b == [] {
      assert a + b == a;
    } else {
      CharCountConcat(a, b[..|b| - 1]);
      assert (a + b)[..|a + b| - 1] == a + b[..|b| - 1];
    }
  }

  lemma {:induction false} ContinuationsCountNothing(bytes: seq<Byte>)
    requires forall b <- bytes :: IsContinuation(b)
    ensures CharCount(bytes) == 0
  {
    if bytes != [] {
      ContinuationsCountNothing(bytes[..|bytes| - 1]);
      assert bytes[|bytes| - 1] in bytes;
    }
  }

  lemma CharCountsOne(c: char)
    ensures CharCount(EncodeChar(c)) == 1
  {
    var bytes := EncodeChar(c);
    assert bytes == [bytes[0]] + bytes[1..];
    CharCountConcat([bytes[0]], bytes[1..]);
    ContinuationsCountNothing(bytes[1..]);
    assert [bytes[0]][..0] == [];
  }

  lemma {:induction false} StartsWithout(a: seq<Byte>, b: seq<Byte>)
    requires NEWLINE !in b
    ensures Starts(a + b) == Starts(a)
  {
    if b == [] {
      assert a + b == a;
    } else {
      StartsWithout(a, b[..|b| - 1]);
      assert (a + b)[..|a + b| - 1] == a + b[..|b| - 1];
    }
  }

  lemma EndAfterNewline(text: seq<Byte>)
    ensures EndOf(text + [NEWLINE]) == Place(EndOf(text).line + 1, 1)
  {
    var longer := text + [NEWLINE];
    assert longer[..|longer| - 1] == text;
    assert longer[|longer|..] == [];
  }

  lemma EndAfterChar(text: seq<Byte>, more: seq<Byte>)
    requires NEWLINE !in more && CharCount(more) == 1
    ensures EndOf(text + more) == Place(EndOf(text).line, EndOf(text).column + 1)
  {
    StartsWithout(text, more);
    var start := Starts(text)[|Starts(text)| - 1];
    assert (text + more)[start..] == text[start..] + more;
    CharCountConcat(text[start..], more);
  }

  /** Reading the bytes of some characters ends at the place after those characters. */
  lemma {:induction false} EndOfEncoded(s: string)
    ensures EndOf(Encode(s)) == PlaceAfter(s)
  {
    if s != [] {
      var init, c := s[..|s| - 1], s[|s| - 1];
      EndOfEncoded(init);
      if c == '\n' {
        assert EncodeChar(c) == [NEWLINE];
        EndAfterNewline(Encode(init));
      } else {
        CharCountsOne(c);
        EndAfterChar(Encode(init), EncodeChar(c));
      }
    }
  }

  /** The offset of the character with index `i`. */
  function OffsetOf(s: string, i: nat): nat
    requires i <= |s|
  {
    Utf8Len(s[..i])
  }

  lemma {:induction false} OffsetsAscend(s: string, i: nat, j: nat)
    requires i < j <= |s|
    ensures OffsetOf(s, i) < OffsetOf(s, j)
  {
    assert s[..j][..j - 1] == s[..j - 1];
    if i < j - 1 {
      OffsetsAscend(s, i, j - 1);
    }
  }

  /** Boundaries are exactly the offsets of characters and the end. */
  lemma {:induction false} BoundaryIffCharacter(s: string, offset: nat)
    requires offset <= Utf8Len(s)
    ensures IsBoundary(Encode(s), offset) <==> exists i :: 0 <= i <= |s| && OffsetOf(s, i) == offset
  {
    if offset == 0 {
      assert OffsetOf(s, 0) == 0;
    } else if offset == Utf8Len(s) {
      assert s[..|s|] == s;
      assert OffsetOf(s, |s|) == offset;
    } else {
      var init, c := s[..|s| - 1], s[|s| - 1];
      var text, more := Encode(init), EncodeChar(c);
      assert OffsetOf(s, |init|) == |text|;
      if offset < |text| {
        BoundaryIffCharacter(init, offset);
        assert Encode(s)[offset] == text[offset];
        SameOffsets(s, offset);
      } else if offset == |text| {
        assert Encode(s)[offset] == more[0];
      } else {
        assert Encode(s)[offset] == more[1..][offset - |text| - 1];
        forall i | 0 <= i <= |s|
          ensures OffsetOf(s, i) != offset
        {
          InsideLast(s, offset, i);
        }
      }
    }
  }

  lemma SameOffsets(s: string, offset: nat)
    requires s != [] && offset < Utf8Len(s[..|s| - 1])
    ensures
      var init := s[..|s| - 1];
      (exists i :: 0 <= i <= |s| && OffsetOf(s, i) == offset)
      <==> exists i :: 0 <= i <= |init| && OffsetOf(init, i) == offset
  {
    var init := s[..|s| - 1];
    forall i | 0 <= i <= |init|
      ensures OffsetOf(init, i) == OffsetOf(s, i)
    {
      assert init[..i] == s[..i];
    }
    assert s[..|s|] == s;
    assert OffsetOf(s, |s|) == Utf8Len(s);
  }

  lemma InsideLast(s: string, offset: nat, i: nat)
    requires s != [] && Utf8Len(s[..|s| - 1]) < offset < Utf8Len(s) && i <= |s|
    ensures OffsetOf(s, i) != offset
  {
    assert s[..|s|] == s;
    if i < |s| - 1 {
      OffsetsAscend(s, i, |s| - 1);
    }
  }

  /** A position is defined exactly at the boundaries between characters, and is the line and column
      a reader of the characters before it would report. */
  lemma PositionIsPlace(s: string, offset: nat)
    ensures PositionIn(Encode(s), offset).Some? <==> exists i :: 0 <= i <= |s| && OffsetOf(s, i) == offset
    ensures forall i :: 0 <= i <= |s| && OffsetOf(s, i) == offset ==>
              PositionIn(Encode(s), offset) == Some(PlaceAfter(s[..i]))
  {
    if offset <= Utf8Len(s) {
      BoundaryIffCharacter(s, offset);
    }
    forall i | 0 <= i <= |s| && OffsetOf(s, i) == offset
      ensures PositionIn(Encode(s), offset) == Some(PlaceAfter(s[..i]))
    {
      PositionAt(s, i);
    }
  }

  lemma PositionAt(s: string, i: nat)
    requires i <= |s|
    ensures OffsetOf(s, i) <= Utf8Len(s)
    ensures PositionIn(Encode(s), OffsetOf(s, i)) == Some(PlaceAfter(s[..i]))
  {
    EncodePrefix(s, i);
    BoundaryIffCharacter(s, OffsetOf(s, i));
    EndOfEncoded(s[..i]);
  }

  predicate Before(a: Place, b: Place) {
    a.line < b.line || (a.line == b.line && a.column < b.column)
  }

  lemma {:induction false} PlacesAscend(s: string, i: nat, j: nat)
    requires i < j <= |s|
    ensures Before(PlaceAfter(s[..i]), PlaceAfter(s[..j]))
  {
    assert s[..j][..j - 1] == s[..j - 1];
    if i < j - 1 {
      PlacesAscend(s, i, j - 1);
    }
  }

  /** Positions of increasing offsets increase, so no two offsets share one. */
  lemma PositionsIncrease(s: string, a: nat, b: nat)
    requires a < b && PositionIn(Encode(s), a).Some? && PositionIn(Encode(s), b).Some?
    ensures Before(PositionIn(Encode(s), a).value, PositionIn(Encode(s), b).value)
  {
    PositionIsPlace(s, a);
    PositionIsPlace(s, b);
    var i :| 0 <= i <= |s| && OffsetOf(s, i) == a;
    var j :| 0 <= j <= |s| && OffsetOf(s, j) == b;
    if j < i {
      OffsetsAscend(s, j, i);
    }
    PlacesAscend(s, i, j);
  }

  /** Lines and columns stay within the text. */
  lemma {:induction false} PlacesFit(s: string)
    ensures PlaceAfter(s).line >= 1 && PlaceAfter(s).column >= 1
    ensures PlaceAfter(s).line + PlaceAfter(s).column <= Utf8Len(s) + 2
  {
    if s != [] {
      PlacesFit(s[..|s| - 1]);
    }
  }

  lemma CountIsExactIff(n: nat, checked: bool)
    ensures CountedFromOne(n, checked) == Some(n + 1) <==> n < U32_MAX
  {
  }

  /** The place, counted: newlines, and characters since the last one. */
  lemma PlaceCounted(s: string) returns (lines: nat, columns: nat)
    ensures lines == multiset(s)['\n'] && columns == |LastLine(s)|
    ensures PlaceAfter(s) == Place(1 + lines, 1 + columns)
  {
    lines, columns := multiset(s)['\n'], |LastLine(s)|;
    LineCountsNewlines(s);
    ColumnCountsCharacters(s);
  }

  lemma ExactPlaceIff(p: Place, line: nat, column: nat, checked: bool)
    requires p == Place(1 + line, 1 + column)
    ensures Reported(p, checked) == Known(p) <==> line < U32_MAX && column < U32_MAX
  {
    CountIsExactIff(line, checked);
    CountIsExactIff(column, checked);
  }

  /** A position is reported as it is exactly when fewer than 2^32 - 1 newlines come before it, and fewer
      than 2^32 - 1 characters since the last of them. */
  lemma ReportedIsExactIff(s: string, i: nat, checked: bool)
    requires i <= |s|
    ensures PositionIn(Encode(s), OffsetOf(s, i)).Some?
    ensures
      var p := PositionIn(Encode(s), OffsetOf(s, i)).value;
      p.line > 0 && p.column > 0
      && (Reported(p, checked) == Known(p) <==> multiset(s[..i])['\n'] < U32_MAX && |LastLine(s[..i])| < U32_MAX)
  {
    PositionAt(s, i);
    var lines, columns := PlaceCounted(s[..i]);
    ExactPlaceIff(PlaceAfter(s[..i]), lines, columns, checked);
  }

  /** So is every position of a text below 2^32 - 1 bytes. */
  lemma ReportedIsExact(s: string, offset: nat, checked: bool)
    requires Utf8Len(s) < U32_MAX && PositionIn(Encode(s), offset).Some?
    ensures Reported(PositionIn(Encode(s), offset).value, checked) == Known(PositionIn(Encode(s), offset).value)
  {
    PositionIsPlace(s, offset);
    var i :| 0 <= i <= |s| && OffsetOf(s, i) == offset;
    PlacesFit(s[..i]);
    EncodePrefix(s, i);
    SmallIsExact(PlaceAfter(s[..i]), OffsetOf(s, i), checked);
  }

  lemma SmallIsExact(p: Place, total: nat, checked: bool)
    requires p.line > 0 && p.column > 0 && p.line + p.column <= total + 2 && total < U32_MAX
    ensures Reported(p, checked) == Known(p)
  {
    CountIsExactIff(p.line - 1, checked);
    CountIsExactIff(p.column - 1, checked);
  }

  /** That bound is tight: the end of a line of 2^32 - 1 characters overflows, or is in column zero. */
  lemma LongLineOverflows(s: string, checked: bool)
    requires '\n' !in s && |s| == U32_MAX
    ensures PlaceAfter(s) == Place(1, U32_MAX + 1)
    ensures Reported(PlaceAfter(s), checked) == if checked then Overflow else Known(Place(1, 0))
  {
    LineCountsNewlines(s);
    ColumnCountsCharacters(s);
  }
}
