/**
  The language server's coordinates: byte offset to (line, UTF-16 column), and
  its inverse.

  Language Server Protocol 3.17, section "Position".
 */
module Coordinates {
  import opened Text

  predicate IsNewline(c: char) {
    c == '\n' || c == '\r'
  }

  /** Scalar index `k` opens a line: the text starts there, or a terminator (`\n`, `\r\n`, bare `\r`) just ended. */
  predicate IsLineStart(s: string, k: nat)
    requires k <= |s|
  {
    || k == 0
    || s[k - 1] == '\n'
    || (s[k - 1] == '\r' && !(k < |s| && s[k] == '\n'))
  }

  /** `k` falls between the two halves of one `\r\n` terminator. */
  predicate InsideCrLf(s: string, k: nat)
    requires k <= |s|
  {
    0 < k < |s| && s[k - 1] == '\r' && s[k] == '\n'
  }

  // ----- The line model, one scalar index at a time -----

  function LineNumber(s: string, k: nat): (n: nat)
    requires k <= |s|
    ensures n <= k
  {
    if k == 0 then 0 else LineNumber(s, k - 1) + if IsLineStart(s, k) then 1 else 0
  }

  /** The last line start at or before `k`. */
  function LineBegin(s: string, k: nat): (b: nat)
    requires k <= |s|
    ensures b <= k && IsLineStart(s, b)
    ensures forall j :: b < j <= k ==> !IsLineStart(s, j)
  {
    if IsLineStart(s, k) then k else LineBegin(s, k - 1)
  }

  /** The reference position: line starts passed, and UTF-16 code units since the last one. */
  function Place(s: string, k: nat): (nat, nat)
    requires k <= |s|
  {
    OffsetsIncrease(s, LineBegin(s, k), k);
    (LineNumber(s, k), Utf16Offset(s, k) - Utf16Offset(s, LineBegin(s, k)))
  }

  predicate Before(p: (nat, nat), q: (nat, nat)) {
    p.0 < q.0 || (p.0 == q.0 && p.1 < q.1)
  }

  /** Positions are strictly increasing over character boundaries, so distinct boundaries never share one. */
  lemma {:induction false} PlaceIncreases(s: string, i: nat, j: nat)
    requires i < j <= |s|
    ensures Before(Place(s, i), Place(s, j))
    decreases j
  {
    if i + 1 < j {
      PlaceIncreases(s, i, j - 1);
    }
    assert Before(Place(s, j - 1), Place(s, j));
  }

  // ----- The index of line starts -----

  function LineStartsUpTo(s: string, k: nat): (starts: seq<nat>)
    requires k <= |s|
    ensures |starts| == LineNumber(s, k) + 1
  {
    if k == 0 then [0]
    else LineStartsUpTo(s, k - 1) + if IsLineStart(s, k) then [ByteOffset(s, k)] else []
  }

  function LineStarts(s: string): seq<nat> {
    LineStartsUpTo(s, |s|)
  }

  lemma {:induction false} LineStartsPrefix(s: string, i: nat, j: nat)
    requires i <= j <= |s|
    ensures LineStartsUpTo(s, i) <= LineStartsUpTo(s, j)
    decreases j
  {
    if i < j {
      LineStartsPrefix(s, i, j - 1);
    }
  }

  lemma {:induction false} LastLineStart(s: string, k: nat)
    requires k <= |s|
    ensures LineStartsUpTo(s, k)[LineNumber(s, k)] == ByteOffset(s, LineBegin(s, k))
  {
    if k > 0 && !IsLineStart(s, k) {
      LastLineStart(s, k - 1);
    }
  }

  lemma {:induction false} StartOfLine(s: string, k: nat)
    requires k <= |s|
    ensures LineNumber(s, k) < |LineStarts(s)|
    ensures LineStarts(s)[LineNumber(s, k)] == ByteOffset(s, LineBegin(s, k))
  {
    LastLineStart(s, k);
    LineStartsPrefix(s, k, |s|);
  }

  lemma {:induction false} LineStartsEnumerate(s: string, k: nat)
    requires k <= |s|
    ensures forall m :: 0 <= m < |LineStartsUpTo(s, k)| ==>
                          IsBoundary(s, LineStartsUpTo(s, k)[m])
                          && FloorIndex(s, LineStartsUpTo(s, k)[m]) <= k
                          && IsLineStart(s, FloorIndex(s, LineStartsUpTo(s, k)[m]))
    ensures forall m, n :: 0 <= m < n < |LineStartsUpTo(s, k)| ==>
                             LineStartsUpTo(s, k)[m] < LineStartsUpTo(s, k)[n]
    ensures forall m :: 0 <= m < |LineStartsUpTo(s, k)| ==>
                          LineStartsUpTo(s, k)[m] <= ByteOffset(s, k)
  {
    IndexOfOffset(s, k);
    if k > 0 {
      LineStartsEnumerate(s, k - 1);
    } else {
      IndexOfOffset(s, 0);
    }
  }

  /** The index lists exactly the offsets of the line starts, in increasing order. */
  lemma LineStartsAreExactlyTheLineStarts(s: string)
    ensures forall b :: b in LineStarts(s) <==> IsBoundary(s, b) && IsLineStart(s, FloorIndex(s, b))
    ensures forall m, n :: 0 <= m < n < |LineStarts(s)| ==> LineStarts(s)[m] < LineStarts(s)[n]
  {
    LineStartsEnumerate(s, |s|);
    forall b | IsBoundary(s, b) && IsLineStart(s, FloorIndex(s, b))
      ensures b in LineStarts(s)
    {
      StartOfLine(s, FloorIndex(s, b));
    }
  }

  lemma LineStartsSorted(s: string)
    ensures LineStarts(s)[0] == 0
    ensures forall m, n :: 0 <= m < n < |LineStarts(s)| ==> LineStarts(s)[m] < LineStarts(s)[n]
  {
    LineStartsEnumerate(s, |s|);
    LineStartsPrefix(s, 0, |s|);
  }

  lemma LineStartsOrdered(s: string, m: nat, n: nat)
    requires m <= n < |LineStarts(s)|
    ensures LineStarts(s)[m] <= LineStarts(s)[n]
    ensures IsBoundary(s, LineStarts(s)[n])
  {
    LineStartsEnumerate(s, |s|);
  }

  // ----- LineIndex -----

  datatype SearchResult = Found(index: nat) | Missing(insertAt: nat)

  /** A sorted slice's binary search: the match, or where it would be inserted. */
  function BinarySearch(xs: seq<nat>, x: nat, lo: nat, hi: nat): (r: SearchResult)
    requires lo <= hi <= |xs|
    requires forall m, n :: 0 <= m < n < |xs| ==> xs[m] < xs[n]
    requires forall m :: 0 <= m < lo ==> xs[m] < x
    requires forall m :: hi <= m < |xs| ==> x < xs[m]
    ensures r.Found? ==> r.index < |xs| && xs[r.index] == x
    ensures r.Missing? ==> r.insertAt <= |xs|
                           && (forall m :: 0 <= m < r.insertAt ==> xs[m] < x)
                           && (forall m :: r.insertAt <= m < |xs| ==> x < xs[m])
    decreases hi - lo
  {
    if lo == hi then Missing(lo)
    else
      var mid := lo + (hi - lo) / 2;
      if xs[mid] == x then Found(mid)
      else if xs[mid] < x then BinarySearch(xs, x, mid + 1, hi)
      else BinarySearch(xs, x, lo, mid)
  }

  datatype LineIndex = LineIndex(text: string, lineStarts: seq<nat>) {

    predicate Valid() {
      lineStarts == LineStarts(text)
    }

    static method New(text: string) returns (index: LineIndex)
      ensures index.text == text && index.Valid()
    {
      var lineStarts := [0];
      var i, byte := 0, 0;
      while i < |text|
        invariant i <= |text| && byte == ByteOffset(text, i)
        invariant lineStarts == LineStartsUpTo(text, i)
        invariant !InsideCrLf(text, i)
      {
        if text[i] == '\n' {
          lineStarts := lineStarts + [byte + 1];
          i, byte := i + 1, byte + 1;
        } else if text[i] == '\r' {
          var next := if i + 1 < |text| && text[i + 1] == '\n' then 2 else 1;
          assert next == 2 ==> ByteOffset(text, i + 2) == byte + 2 && !IsLineStart(text, i + 1)
                               && LineStartsUpTo(text, i + 1) == lineStarts;
          lineStarts := lineStarts + [byte + next];
          i, byte := i + next, byte + next;
        } else {
          i, byte := i + 1, byte + Utf8Width(text[i]);
        }
      }
      index := LineIndex(text, lineStarts);
    }

    /** The line holding a byte offset, as the binary search over line starts finds it. */
    function LineOf(byte: nat): (line: nat)
      requires Valid()
      ensures line < |lineStarts| && lineStarts[line] <= byte
      ensures line + 1 < |lineStarts| ==> byte < lineStarts[line + 1]
    {
      LineStartsSorted(text);
      match BinarySearch(lineStarts, byte, 0, |lineStarts|)
      case Found(line) => line
      case Missing(next) => next - 1
    }

    /** The zero-based (line, UTF-16 column) of a character boundary. */
    function Position(byte: nat): (p: (u32, u32))
      requires Valid() && IsBoundary(text, byte) && ByteLen(text) < U32_LIMIT
      ensures (p.0 as nat, p.1 as nat) == Place(text, FloorIndex(text, byte))
    {
      var line := LineOf(byte);
      LineIsLineNumber(text, FloorIndex(text, byte), line);
      StartOfLine(text, FloorIndex(text, byte));
      ColumnOfPlace(text, FloorIndex(text, byte));
      (line, Utf16Len(Slice(text, lineStarts[line], byte)))
    }

    /** The byte offset of a (line, UTF-16 character) position, clamped to the line's content. */
    method OffsetOf(line: u32, character: u32) returns (offset: nat)
      requires Valid()
      ensures offset == ByteOffset(text, SeekIndex(text, line, character))
    {
      SeekParts(text, line, character);
      var clamped := if line < |lineStarts| - 1 then line else |lineStarts| - 1;
      var lineStart := lineStarts[clamped];
      var lineEnd := if clamped + 1 < |lineStarts| then lineStarts[clamped + 1] else ByteLen(text);
      var first := FloorIndex(text, lineStart);
      var last := ContentEnd(text, first, FloorIndex(text, lineEnd));
      offset := ScanContent(text, first, last, character);
    }
  }

  /** The scan over a line's content, scalars `first..last`: stop at the column, or at the end. */
  method ScanContent(s: string, first: nat, last: nat, character: nat) returns (offset: nat)
    requires first <= last <= |s|
    ensures offset == ByteOffset(s, SeekColumn(s, first, first, last, character))
  {
    var utf16, k := 0, first;
    offset := ByteOffset(s, first);
    while k < last
      invariant first <= k <= last && offset == ByteOffset(s, k)
      invariant utf16 == Utf16Offset(s, k) - Utf16Offset(s, first)
      invariant SeekColumn(s, first, k, last, character) == SeekColumn(s, first, first, last, character)
    {
      if utf16 >= character {
        return;
      }
      utf16 := utf16 + Utf16Width(s[k]);
      offset := offset + Utf8Width(s[k]);
      k := k + 1;
    }
  }

  lemma LineIsLineNumber(s: string, k: nat, line: nat)
    requires k <= |s| && line < |LineStarts(s)|
    requires LineStarts(s)[line] <= ByteOffset(s, k)
    requires line + 1 < |LineStarts(s)| ==> ByteOffset(s, k) < LineStarts(s)[line + 1]
    ensures line == LineNumber(s, k)
  {
    var n := LineNumber(s, k);
    StartOfLine(s, k);
    OffsetsIncrease(s, LineBegin(s, k), k);
    if line < n {
      LineStartsOrdered(s, line + 1, n);
    } else if n < line {
      NextLineStart(s, k);
      LineStartsOrdered(s, n + 1, line);
    }
  }

  lemma ColumnOfPlace(s: string, k: nat)
    requires k <= |s|
    ensures ByteOffset(s, LineBegin(s, k)) <= ByteOffset(s, k)
    ensures Utf16Len(Slice(s, ByteOffset(s, LineBegin(s, k)), ByteOffset(s, k))) == Place(s, k).1
    ensures Place(s, k).0 <= ByteLen(s) && Place(s, k).1 <= ByteLen(s)
  {
    OffsetsIncrease(s, LineBegin(s, k), k);
    OffsetsIncrease(s, 0, LineBegin(s, k));
    OffsetsIncrease(s, k, |s|);
    IndexOfOffset(s, k);
    IndexOfOffset(s, LineBegin(s, k));
    OffsetsOfSlice(s, LineBegin(s, k), k);
  }

  lemma {:induction false} NextLineStart(s: string, k: nat)
    requires k <= |s|
    ensures LineNumber(s, k) + 1 < |LineStarts(s)| ==> ByteOffset(s, k) < LineStarts(s)[LineNumber(s, k) + 1]
    decreases |s| - k
  {
    if k < |s| {
      if IsLineStart(s, k + 1) {
        StartOfLine(s, k + 1);
      } else {
        NextLineStart(s, k + 1);
      }
    }
  }

  // ----- Positions back to offsets -----

  /** Drop trailing terminator characters of scalars `first..last`. */
  function ContentEnd(s: string, first: nat, last: nat): (e: nat)
    requires first <= last <= |s|
    ensures first <= e <= last
    ensures forall m :: e <= m < last ==> IsNewline(s[m])
    ensures e > first ==> !IsNewline(s[e - 1])
  {
    if first < last && IsNewline(s[last - 1]) then ContentEnd(s, first, last - 1) else last
  }

  function SeekColumn(s: string, first: nat, k: nat, last: nat, character: nat): (r: nat)
    requires first <= k <= last <= |s|
    ensures k <= r <= last
    ensures forall m :: k <= m < r ==> Utf16Offset(s, m) - Utf16Offset(s, first) < character
    ensures r < last ==> Utf16Offset(s, r) - Utf16Offset(s, first) >= character
    decreases last - k
  {
    if k == last || Utf16Offset(s, k) - Utf16Offset(s, first) >= character then k
    else SeekColumn(s, first, k + 1, last, character)
  }

  function ClampedLine(s: string, line: nat): (n: nat)
    ensures n < |LineStarts(s)|
  {
    if line < |LineStarts(s)| - 1 then line else |LineStarts(s)| - 1
  }

  /** Scalar index of the start of a line, and of the line after it (or the end of the text). */
  function LineFirst(s: string, line: nat): nat
    requires line < |LineStarts(s)|
  {
    FloorIndex(s, LineStarts(s)[line])
  }

  function LineLast(s: string, line: nat): (e: nat)
    requires line < |LineStarts(s)|
    ensures e <= |s|
  {
    if line + 1 < |LineStarts(s)| then LineFirst(s, line + 1) else |s|
  }

  lemma LineBounds(s: string, line: nat)
    ensures var n := ClampedLine(s, line);
            LineFirst(s, n) <= LineLast(s, n)
            && IsBoundary(s, LineStarts(s)[n])
  {
    var n := ClampedLine(s, line);
    LineStartsEnumerate(s, |s|);
    if n + 1 < |LineStarts(s)| {
      ByteOffsetInjective(s, LineFirst(s, n), LineFirst(s, n + 1));
    }
  }

  /** Where a client position points: the first content scalar of the clamped line at or past the column, else its content end. */
  function SeekIndex(s: string, line: nat, character: nat): (k: nat)
    ensures k <= |s|
  {
    LineBounds(s, line);
    var n := ClampedLine(s, line);
    var first := LineFirst(s, n);
    SeekColumn(s, first, first, ContentEnd(s, first, LineLast(s, n)), character)
  }

  lemma SeekParts(s: string, line: nat, character: nat)
    ensures var (starts, n) := (LineStarts(s), ClampedLine(s, line));
            var first, end := FloorIndex(s, starts[n]), FloorIndex(s, if n + 1 < |starts| then starts[n + 1] else ByteLen(s));
            && first <= end && ByteOffset(s, first) == starts[n]
            && SeekIndex(s, line, character) == SeekColumn(s, first, first, ContentEnd(s, first, end), character)
  {
    LineBounds(s, line);
    IndexOfOffset(s, |s|);
  }

  lemma LineOfIndex(s: string, k: nat)
    requires k <= |s|
    ensures var n := LineNumber(s, k);
            n < |LineStarts(s)| && ClampedLine(s, n) == n
            && LineFirst(s, n) == LineBegin(s, k) <= k <= LineLast(s, n)
            && (n + 1 < |LineStarts(s)| ==> k < LineLast(s, n) && IsLineStart(s, LineLast(s, n)))
  {
    var n := LineNumber(s, k);
    StartOfLine(s, k);
    IndexOfOffset(s, LineBegin(s, k));
    LineStartsEnumerate(s, |s|);
    NextLineStart(s, k);
    if n + 1 < |LineStarts(s)| {
      ByteOffsetInjective(s, k, LineFirst(s, n + 1));
    }
  }

  /** Where the line holding `k` stops having content. */
  function ContentEndOf(s: string, k: nat): (e: nat)
    requires k <= |s|
    ensures e <= |s|
  {
    LineOfIndex(s, k);
    ContentEnd(s, LineBegin(s, k), LineLast(s, LineNumber(s, k)))
  }

  lemma ContentEndsOnLine(s: string, n: nat)
    requires n < |LineStarts(s)|
    ensures LineFirst(s, n) <= LineLast(s, n)
    ensures var e := ContentEnd(s, LineFirst(s, n), LineLast(s, n));
            n + 1 < |LineStarts(s)| ==> e < LineLast(s, n)
  {
    LineBounds(s, n);
    LineStartsEnumerate(s, |s|);
    if n + 1 < |LineStarts(s)| {
      ByteOffsetInjective(s, LineFirst(s, n), LineFirst(s, n + 1));
    }
  }

  /**
    Any position a client sends lands on its clamped line: on the first boundary
    of it at or past the column, or where its content ends.
   */
  lemma SeekStaysOnLine(s: string, line: nat, character: nat)
    ensures var k := SeekIndex(s, line, character);
            && LineNumber(s, k) == ClampedLine(s, line)
            && k <= ContentEndOf(s, k)
            && (k < ContentEndOf(s, k) ==> character <= Place(s, k).1)
            && forall m :: LineBegin(s, k) <= m < k ==> Utf16Offset(s, m) - Utf16Offset(s, LineBegin(s, k)) < character
  {
    var n, k := ClampedLine(s, line), SeekIndex(s, line, character);
    LineBounds(s, line);
    ContentEndsOnLine(s, n);
    ByteOffsetInjective(s, LineFirst(s, n), k);
    if n + 1 < |LineStarts(s)| {
      LineBounds(s, n + 1);
      ByteOffsetInjective(s, k, LineLast(s, n));
    }
    LineIsLineNumber(s, k, n);
    LineOfIndex(s, k);
  }

  /** Only the point strictly inside a `\r\n` lies past its own line's content. */
  lemma PastContentIsInsideCrLf(s: string, k: nat)
    requires k <= |s|
    ensures k > ContentEndOf(s, k) <==> InsideCrLf(s, k)
  {
    LineOfIndex(s, k);
    var first, last, e := LineBegin(s, k), LineLast(s, LineNumber(s, k)), ContentEndOf(s, k);
    if k > e {
      assert IsNewline(s[k - 1]) && !IsLineStart(s, k);
    }
    if InsideCrLf(s, k) {
      assert !IsLineStart(s, k) && IsLineStart(s, k + 1);
      LineInterior(s, k, k + 1);
      assert last == k + 1 && first < k;
    }
  }

  /** No line start lies strictly between `k` and the end of its line. */
  lemma LineInterior(s: string, k: nat, j: nat)
    requires k < j <= |s| && IsLineStart(s, j)
    ensures LineNumber(s, k) + 1 < |LineStarts(s)| && LineLast(s, LineNumber(s, k)) <= j
  {
    var n := LineNumber(s, k);
    LineNumberIncreases(s, k, j);
    StartOfLine(s, j);
    LineOfIndex(s, k);
    assert LineBegin(s, j) == j;
    LineStartsOrdered(s, n + 1, LineNumber(s, j));
    IndexOfOffset(s, LineFirst(s, n + 1));
    ByteOffsetInjective(s, LineFirst(s, n + 1), j);
  }

  lemma {:induction false} LineNumberIncreases(s: string, i: nat, j: nat)
    requires i <= j <= |s|
    ensures LineNumber(s, i) <= LineNumber(s, j)
    ensures i < j && IsLineStart(s, j) ==> LineNumber(s, i) < LineNumber(s, j)
    decreases j
  {
    if i < j {
      LineNumberIncreases(s, i, j - 1);
    }
  }

  /** Seeking a boundary's own position lands on it, or on its line's content end when that comes first. */
  lemma SeekOfPlace(s: string, k: nat)
    requires k <= |s|
    ensures var p := Place(s, k);
            SeekIndex(s, p.0, p.1) == if k <= ContentEndOf(s, k) then k else ContentEndOf(s, k)
  {
    LineOfIndex(s, k);
    var p, first, e := Place(s, k), LineBegin(s, k), ContentEndOf(s, k);
    var r := SeekIndex(s, p.0, p.1);
    if r < k {
      OffsetsIncrease(s, r, k);
    }
  }

  /** `offset_of` undoes `position` at every character boundary except strictly inside a `\r\n`. */
  lemma OffsetOfUndoesPosition(s: string, k: nat)
    requires k <= |s|
    ensures var p := Place(s, k); SeekIndex(s, p.0, p.1) == k <==> !InsideCrLf(s, k)
  {
    SeekOfPlace(s, k);
    PastContentIsInsideCrLf(s, k);
  }
}
