// Text positions: byte offsets of a rope against the (line, UTF-16 column) pairs of the
// protocol. How a text splits into lines is the rope's business and taken as given.
module Positions {
  import opened Seqs

  // Every line but the last ends in its line break, so it is not empty.
  datatype Rope = Rope(lines: seq<string>) {
    ghost predicate Valid() {
      lines != [] && forall i :: 0 <= i < |lines| - 1 ==> lines[i] != ""
    }
  }

  const U32: nat := 0x1_0000_0000

  function ToU32(n: nat): nat { n % U32 }

  function Utf8Len(c: char): nat {
    if c < '\U{0080}' then 1 else if c < '\U{0800}' then 2 else if c < '\U{10000}' then 3 else 4
  }

  function Utf16Len(c: char): nat {
    if c < '\U{10000}' then 1 else 2
  }

  function Bytes(s: string): nat {
    if s == "" then 0 else Bytes(Front(s)) + Utf8Len(Last(s))
  }

  function Units(s: string): nat {
    if s == "" then 0 else Units(Front(s)) + Utf16Len(Last(s))
  }

  // ---- what the rope library answers

  function Text(lines: seq<string>): string {
    if lines == [] then "" else lines[0] + Text(lines[1..])
  }

  function LineToChar(lines: seq<string>, line: nat): nat
    requires line <= |lines|
  {
    if line == 0 then 0 else |lines[0]| + LineToChar(lines[1..], line - 1)
  }

  function LineToByte(lines: seq<string>, line: nat): nat
    requires line <= |lines|
  {
    if line == 0 then 0 else Bytes(lines[0]) + LineToByte(lines[1..], line - 1)
  }

  // A character index at a line's start belongs to that line; the end of the text belongs to the last.
  function CharToLine(lines: seq<string>, i: nat): (line: nat)
    requires lines != []
    ensures line < |lines|
  {
    if |lines| == 1 || i < |lines[0]| then 0 else 1 + CharToLine(lines[1..], i - |lines[0]|)
  }

  // A byte inside a character belongs to that character.
  function ByteToChar(s: string, offset: nat): (i: nat)
    ensures i <= |s|
  {
    if s == "" || offset < Utf8Len(s[0]) then 0 else 1 + ByteToChar(s[1..], offset - Utf8Len(s[0]))
  }

  // ---- the two conversions

  lemma {:induction false} TailSlice(head: string, tail: string, from: nat, to: nat)
    requires from <= to <= |tail|
    ensures (head + tail)[|head| + from..|head| + to] == tail[from..to]
  {
  }

  lemma {:induction false} LineStartsInText(lines: seq<string>, i: nat)
    requires lines != [] && i <= |Text(lines)|
    ensures LineToChar(lines, CharToLine(lines, i)) <= i <= |Text(lines)|
    ensures var line := CharToLine(lines, i);
      var start := LineToChar(lines, line);
      i - start <= |lines[line]| && Text(lines)[start..i] == lines[line][..i - start]
    decreases |lines|, 1
  {
    if |lines| > 1 && i >= |lines[0]| {
      LineStartsInRest(lines, i);
    } else {
      assert |lines| == 1 ==> lines[1..] == [];
      assert Text(lines)[0..i] == lines[0][..i];
    }
  }

  lemma {:induction false} LineStartsInRest(lines: seq<string>, i: nat)
    requires |lines| > 1 && |lines[0]| <= i <= |Text(lines)|
    ensures LineToChar(lines, CharToLine(lines, i)) <= i
    ensures var line := CharToLine(lines, i);
      var start := LineToChar(lines, line);
      i - start <= |lines[line]| && Text(lines)[start..i] == lines[line][..i - start]
    decreases |lines|, 0
  {
    var rest, k := lines[1..], i - |lines[0]|;
    LineStartsInText(rest, k);
    assert CharToLine(lines, i) == 1 + CharToLine(rest, k);
    assert LineToChar(lines, 1 + CharToLine(rest, k)) == |lines[0]| + LineToChar(rest, CharToLine(rest, k));
    hide CharToLine, LineToChar;
    TailSlice(lines[0], Text(rest), LineToChar(rest, CharToLine(rest, k)), k);
  }

  function OffsetToLineCol(rope: Rope, offset: nat): (nat, nat)
    requires rope.Valid()
  {
    var text := Text(rope.lines);
    var i := ByteToChar(text, if offset < Bytes(text) then offset else Bytes(text));
    var line := CharToLine(rope.lines, i);
    LineStartsInText(rope.lines, i);
    (ToU32(line), ToU32(Units(text[LineToChar(rope.lines, line)..i])))
  }

  // How many characters of a line lie before a column: the fewest that reach it.
  function Reaching(line: string, column: int): (n: nat)
    ensures n <= |line|
  {
    if line == "" || column <= 0 then 0 else 1 + Reaching(line[1..], column - Utf16Len(line[0]))
  }

  method LineColToOffset(rope: Rope, line: nat, character: nat) returns (offset: Option<nat>)
    requires rope.Valid()
    ensures offset == if line < |rope.lines|
      then Some(LineToByte(rope.lines, line) + Bytes(rope.lines[line][..Reaching(rope.lines[line], character)]))
      else None
  {
    if line >= |rope.lines| {
      return None;
    }
    var slice := rope.lines[line];
    var units, bytes, i := 0, 0, 0;
    while i < |slice| && units < character
      invariant 0 <= i <= |slice|
      invariant units == Units(slice[..i]) && bytes == Bytes(slice[..i])
      invariant Reaching(slice, character) == i + Reaching(slice[i..], character - units)
    {
      assert Front(slice[..i + 1]) == slice[..i];
      assert slice[i..][1..] == slice[i + 1..];
      units := units + Utf16Len(slice[i]);
      bytes := bytes + Utf8Len(slice[i]);
      i := i + 1;
    }
    offset := Some(LineToByte(rope.lines, line) + bytes);
  }

  // ---- sums over prefixes

  lemma {:induction false} SumsConcat(a: string, b: string)
    ensures Bytes(a + b) == Bytes(a) + Bytes(b) && Units(a + b) == Units(a) + Units(b)
  {
    if b == "" {
      assert a + b == a;
    } else {
      assert Front(a + b) == a + Front(b);
      SumsConcat(a, Front(b));
    }
  }

  lemma {:induction false} SumsCompare(s: string)
    ensures |s| <= Units(s) <= Bytes(s) <= 4 * |s|
  {
    if s != "" {
      SumsCompare(Front(s));
    }
  }

  lemma {:induction false} PrefixSums(s: string, i: nat, j: nat)
    requires i <= j <= |s|
    ensures Bytes(s[..j]) == Bytes(s[..i]) + Bytes(s[i..j]) && Units(s[..j]) == Units(s[..i]) + Units(s[i..j])
    ensures i < j ==> Units(s[..i]) < Units(s[..j]) && Bytes(s[..i]) < Bytes(s[..j])
  {
    assert s[..j] == s[..i] + s[i..j];
    SumsConcat(s[..i], s[i..j]);
    SumsCompare(s[i..j]);
  }

  lemma {:induction false} ByteToCharOfPrefix(s: string, i: nat)
    requires i <= |s|
    ensures ByteToChar(s, Bytes(s[..i])) == i
  {
    if i == 0 {
      assert s[..0] == "";
    } else {
      assert s[..i] == [s[0]] + s[1..][..i - 1];
      SumsConcat([s[0]], s[1..][..i - 1]);
      assert Front([s[0]]) == "" && Bytes([s[0]]) == Utf8Len(s[0]);
      ByteToCharOfPrefix(s[1..], i - 1);
    }
  }

  lemma {:induction false} LineBytes(lines: seq<string>, line: nat)
    requires line <= |lines|
    ensures LineToChar(lines, line) <= |Text(lines)|
    ensures LineToByte(lines, line) == Bytes(Text(lines)[..LineToChar(lines, line)])
  {
    if line == 0 {
      assert Text(lines)[..0] == "";
    } else {
      LineBytes(lines[1..], line - 1);
      var n := LineToChar(lines[1..], line - 1);
      assert Text(lines)[..|lines[0]| + n] == lines[0] + Text(lines[1..])[..n];
      SumsConcat(lines[0], Text(lines[1..])[..n]);
    }
  }

  // ---- what a column resolves to

  // The result of the backward scan is the fewest characters whose units reach the column, or
  // the whole line when it is too short.
  lemma {:induction false} ReachingIsLeast(line: string, column: int)
    ensures var n := Reaching(line, column);
      && (n < |line| ==> Units(line[..n]) >= column)
      && (forall k :: 0 <= k < n ==> Units(line[..k]) < column)
  {
    if line == "" || column <= 0 {
      assert line[..0] == "";
    } else {
      var c, rest := line[0], line[1..];
      ReachingIsLeast(rest, column - Utf16Len(c));
      forall k | 0 < k <= |line| ensures Units(line[..k]) == Utf16Len(c) + Units(rest[..k - 1]) {
        assert line[..k] == [c] + rest[..k - 1];
        SumsConcat([c], rest[..k - 1]);
        assert Front([c]) == "";
      }
      assert line[..0] == "";
    }
  }

  // On a character boundary's own column the scan stops at that boundary; between the two
  // halves of a surrogate pair it stops behind the pair.
  lemma {:induction false} ReachingBoundary(line: string, k: nat)
    requires k <= |line|
    ensures Reaching(line, Units(line[..k])) == k
    ensures k < |line| && Utf16Len(line[k]) == 2 ==> Reaching(line, Units(line[..k]) + 1) == k + 1
  {
    forall m | 0 <= m < k ensures Units(line[..m]) < Units(line[..k]) {
      PrefixSums(line, m, k);
    }
    ReachingIsLeast(line, Units(line[..k]));
    if k < |line| && Utf16Len(line[k]) == 2 {
      ReachingIsLeast(line, Units(line[..k]) + 1);
      assert Front(line[..k + 1]) == line[..k];
      assert Units(line[..k + 1]) == Units(line[..k]) + 2;
    }
  }

  // ---- the round trip and the order

  ghost predicate Fits(rope: Rope) {
    Bytes(Text(rope.lines)) < 0x1_0000_0000
  }

  lemma {:induction false} LinesWithinText(lines: seq<string>, line: nat)
    requires line < |lines| && forall i :: 0 <= i < |lines| - 1 ==> lines[i] != ""
    ensures line <= LineToChar(lines, line)
  {
    if line > 0 {
      forall i | 0 <= i < |lines[1..]| - 1 ensures lines[1..][i] != "" {
        assert lines[1..][i] == lines[i + 1];
      }
      LinesWithinText(lines[1..], line - 1);
    }
  }

  lemma {:induction false} BoundaryBytes(rope: Rope, i: nat)
    requires rope.Valid() && i <= |Text(rope.lines)|
    ensures var line := CharToLine(rope.lines, i);
      var start := LineToChar(rope.lines, line);
      && start <= i && i - start <= |rope.lines[line]|
      && Text(rope.lines)[start..i] == rope.lines[line][..i - start]
      && Bytes(Text(rope.lines)[..i]) == LineToByte(rope.lines, line) + Bytes(rope.lines[line][..i - start])
  {
    var line := CharToLine(rope.lines, i);
    LineStartsInText(rope.lines, i);
    LineBytes(rope.lines, line);
    PrefixSums(Text(rope.lines), LineToChar(rope.lines, line), i);
  }

  lemma {:induction false} BoundaryFits(rope: Rope, i: nat)
    requires rope.Valid() && Fits(rope) && i <= |Text(rope.lines)|
    ensures Bytes(Text(rope.lines)[..i]) <= Bytes(Text(rope.lines))
    ensures var line := CharToLine(rope.lines, i);
      var start := LineToChar(rope.lines, line);
      && start <= i && i - start <= |rope.lines[line]|
      && line < U32 && 0 <= Units(rope.lines[line][..i - start]) < U32
  {
    var text, line := Text(rope.lines), CharToLine(rope.lines, i);
    BoundaryBytes(rope, i);
    PrefixSums(text, i, |text|);
    assert text[..|text|] == text;
    LinesWithinText(rope.lines, line);
    SumsCompare(text[..i]);
    SumsCompare(rope.lines[line][..i - LineToChar(rope.lines, line)]);
  }

  // The position of a character boundary, without the casts.
  lemma {:induction false} PositionOfBoundary(rope: Rope, i: nat)
    requires rope.Valid() && Fits(rope) && i <= |Text(rope.lines)|
    ensures var line := CharToLine(rope.lines, i);
      var start := LineToChar(rope.lines, line);
      && start <= i && i - start <= |rope.lines[line]|
      && OffsetToLineCol(rope, Bytes(Text(rope.lines)[..i])) == (line, Units(rope.lines[line][..i - start]))
      && Bytes(Text(rope.lines)[..i]) == LineToByte(rope.lines, line) + Bytes(rope.lines[line][..i - start])
  {
    hide Text, LineToByte, LineToChar, CharToLine, ByteToChar, Bytes, Units;
    BoundaryBytes(rope, i);
    BoundaryFits(rope, i);
    ByteToCharOfPrefix(Text(rope.lines), i);
  }

  // Byte offset to position and back is the identity on character boundaries.
  lemma {:induction false} OffsetRoundTrip(rope: Rope, i: nat)
    requires rope.Valid() && Fits(rope) && i <= |Text(rope.lines)|
    ensures var offset := Bytes(Text(rope.lines)[..i]);
      var (line, character) := OffsetToLineCol(rope, offset);
      line < |rope.lines|
      && LineToByte(rope.lines, line) + Bytes(rope.lines[line][..Reaching(rope.lines[line], character)]) == offset
  {
    PositionOfBoundary(rope, i);
    var line := CharToLine(rope.lines, i);
    ReachingBoundary(rope.lines[line], i - LineToChar(rope.lines, line));
  }

  lemma {:induction false} LinesInOrder(lines: seq<string>, i: nat, j: nat)
    requires lines != [] && i < j
    ensures CharToLine(lines, i) <= CharToLine(lines, j)
  {
    if |lines| > 1 && i >= |lines[0]| {
      LinesInOrder(lines[1..], i - |lines[0]|, j - |lines[0]|);
    }
  }

  ghost predicate LexLess(a: (nat, nat), b: (nat, nat)) {
    a.0 < b.0 || (a.0 == b.0 && a.1 < b.1)
  }

  // Later boundaries have later positions.
  lemma {:induction false} PositionsIncrease(rope: Rope, i: nat, j: nat)
    requires rope.Valid() && Fits(rope) && i < j <= |Text(rope.lines)|
    ensures LexLess(OffsetToLineCol(rope, Bytes(Text(rope.lines)[..i])), OffsetToLineCol(rope, Bytes(Text(rope.lines)[..j])))
  {
    hide OffsetToLineCol, Text, LineToByte, LineToChar, CharToLine, Bytes, Units;
    PositionOfBoundary(rope, i);
    PositionOfBoundary(rope, j);
    LinesInOrder(rope.lines, i, j);
    var line := CharToLine(rope.lines, i);
    if line == CharToLine(rope.lines, j) {
      PrefixSums(rope.lines[line], i - LineToChar(rope.lines, line), j - LineToChar(rope.lines, line));
    }
  }

  // ---- the rope's own conversions

  // Section 3.9 of the Unicode Standard: how many bytes and 16-bit units a scalar value takes.
  lemma EncodedLengths(c: char)
    ensures c <= '\U{007F}' ==> Utf8Len(c) == 1
    ensures '\U{0080}' <= c <= '\U{07FF}' ==> Utf8Len(c) == 2
    ensures '\U{0800}' <= c <= '\U{FFFF}' ==> Utf8Len(c) == 3
    ensures '\U{10000}' <= c ==> Utf8Len(c) == 4 && Utf16Len(c) == 2
    ensures c <= '\U{FFFF}' ==> Utf16Len(c) == 1
  {
  }

  // An offset inside a character means that character, one at or behind the end the end.
  lemma {:induction false} OffsetInsideCharacter(s: string, i: nat, offset: nat)
    requires i <= |s| && Bytes(s[..i]) <= offset && (i < |s| ==> offset < Bytes(s[..i + 1]))
    ensures ByteToChar(s, offset) == i
  {
    if s != "" {
      var rest := s[1..];
      assert Front([s[0]]) == "";
      if i == 0 {
        assert s[..1] == [s[0]];
      } else {
        assert s[..i] == [s[0]] + rest[..i - 1];
        SumsConcat([s[0]], rest[..i - 1]);
        if i < |s| {
          assert s[..i + 1] == [s[0]] + rest[..i];
          SumsConcat([s[0]], rest[..i]);
        }
        OffsetInsideCharacter(rest, i - 1, offset - Utf8Len(s[0]));
      }
    }
  }

  // Offsets behind the text are positions of its end.
  lemma {:induction false} OffsetBehindText(rope: Rope, offset: nat)
    requires rope.Valid() && offset >= Bytes(Text(rope.lines))
    ensures OffsetToLineCol(rope, offset) == OffsetToLineCol(rope, Bytes(Text(rope.lines)))
  {
  }

  // A character belongs to the line it stands on: the start of a line to that line and not to the
  // end of the one before, the end of the text to the last line.
  lemma {:induction false} LineOfCharacter(lines: seq<string>, i: nat)
    requires lines != []
    ensures var line := CharToLine(lines, i);
      LineToChar(lines, line) <= i && (line < |lines| - 1 ==> i < LineToChar(lines, line + 1))
  {
    if |lines| > 1 && i >= |lines[0]| {
      LineOfCharacter(lines[1..], i - |lines[0]|);
    }
  }
}
