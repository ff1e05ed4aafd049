/**
  The guard that lets an analysis view (a masked document) lend its spans to the
  source: two cursors advance over both texts and compare UTF-16 lengths
  wherever they meet.
 */
module SourceViews {
  import opened Text
  import opened Coordinates

  /** Scalar `m` of `a` and scalar `n` of `b` start at the same byte. */
  predicate Meet(a: string, m: nat, b: string, n: nat) {
    m <= |a| && n <= |b| && ByteOffset(a, m) == ByteOffset(b, n)
  }

  /** Same bytes, same lines, and the same UTF-16 length before every shared character boundary. */
  ghost predicate ShareCoordinates(a: string, b: string) {
    && ByteLen(a) == ByteLen(b)
    && LineStarts(a) == LineStarts(b)
    && SharedUpTo(a, |a|, b, |b|)
  }

  ghost predicate SharedUpTo(a: string, i: nat, b: string, j: nat)
    requires i <= |a| && j <= |b|
  {
    forall m: nat, n: nat {:trigger Meet(a, m, b, n)} ::
      m <= i && n <= j && Meet(a, m, b, n) ==> Utf16Offset(a, m) == Utf16Offset(b, n)
  }

  /** Neither cursor is more than one scalar ahead of the other. */
  predicate Interleaved(a: string, i: nat, b: string, j: nat)
    requires i <= |a| && j <= |b|
  {
    && (ByteOffset(a, i) < ByteOffset(b, j) ==> j > 0 && ByteOffset(b, j) <= ByteOffset(a, i) + Utf8Width(b[j - 1]))
    && (ByteOffset(b, j) < ByteOffset(a, i) ==> i > 0 && ByteOffset(a, i) <= ByteOffset(b, j) + Utf8Width(a[i - 1]))
  }

  /** The cursor that lags moves: only a meeting point can be new. */
  lemma AdvanceBehind(a: string, i: nat, b: string, j: nat)
    requires i < |a| && j <= |b| && Interleaved(a, i, b, j) && ByteOffset(a, i) < ByteOffset(b, j)
    requires SharedUpTo(a, i, b, j)
    ensures Interleaved(a, i + 1, b, j)
    ensures SharedUpTo(a, i + 1, b, j)
            <==> (Meet(a, i + 1, b, j) ==> Utf16Offset(a, i + 1) == Utf16Offset(b, j))
  {
    forall n: nat {:trigger Meet(a, i + 1, b, n)} | n <= j && Meet(a, i + 1, b, n)
      ensures n == j
    {
      ByteOffsetInjective(b, n, j - 1);
    }
  }

  lemma AdvanceBoth(a: string, i: nat, b: string, j: nat)
    requires i < |a| && j < |b| && ByteOffset(a, i) == ByteOffset(b, j)
    requires SharedUpTo(a, i, b, j)
    ensures Interleaved(a, i + 1, b, j + 1)
    ensures SharedUpTo(a, i + 1, b, j + 1)
            <==> (Meet(a, i + 1, b, j + 1) ==> Utf16Offset(a, i + 1) == Utf16Offset(b, j + 1))
  {
    forall n: nat {:trigger Meet(a, i + 1, b, n)} | n <= j + 1 && Meet(a, i + 1, b, n)
      ensures n == j + 1
    {
      ByteOffsetInjective(b, n, j);
    }
    forall m: nat {:trigger Meet(a, m, b, j + 1)} | m <= i + 1 && Meet(a, m, b, j + 1)
      ensures m == i + 1
    {
      ByteOffsetInjective(a, m, i);
    }
  }

  lemma SharedIsSymmetric(a: string, i: nat, b: string, j: nat)
    requires i <= |a| && j <= |b|
    ensures SharedUpTo(a, i, b, j) <==> SharedUpTo(b, j, a, i)
  {
    assert forall m: nat, n: nat {:trigger Meet(a, m, b, n)} {:trigger Meet(b, n, a, m)} ::
        Meet(a, m, b, n) <==> Meet(b, n, a, m);
  }

  /** The mirror image: `b` lags. */
  lemma AdvanceAhead(a: string, i: nat, b: string, j: nat)
    requires i <= |a| && j < |b| && Interleaved(a, i, b, j) && ByteOffset(b, j) < ByteOffset(a, i)
    requires SharedUpTo(a, i, b, j)
    ensures Interleaved(a, i, b, j + 1)
    ensures SharedUpTo(a, i, b, j + 1)
            <==> (Meet(a, i, b, j + 1) ==> Utf16Offset(a, i) == Utf16Offset(b, j + 1))
  {
    SharedIsSymmetric(a, i, b, j);
    AdvanceBehind(b, j, a, i);
    SharedIsSymmetric(a, i, b, j + 1);
  }

  /** One view being read: the next scalar, the bytes before it, and the UTF-16 units since the views last met. */
  datatype Cursor = Cursor(next: nat, bytes: nat, utf16: nat) {

    predicate At(text: string) {
      next <= |text| && bytes == ByteOffset(text, next)
    }

    function Next(text: string): (c: Cursor)
      requires At(text) && next < |text|
      ensures c.At(text) && c.next == next + 1
      ensures c.utf16 + Utf16Offset(text, next) == utf16 + Utf16Offset(text, next + 1)
    {
      Cursor(next + 1, bytes + Utf8Width(text[next]), utf16 + Utf16Width(text[next]))
    }
  }

  /** Move whichever cursor lags, or both when they are level. Neither runs off its end. */
  method Advance(source: string, s: Cursor, analysis: string, a: Cursor) returns (s': Cursor, a': Cursor)
    requires ByteLen(source) == ByteLen(analysis)
    requires s.At(source) && a.At(analysis)
    requires s.bytes < ByteLen(source) || a.bytes < ByteLen(analysis)
    requires Interleaved(source, s.next, analysis, a.next) && SharedUpTo(source, s.next, analysis, a.next)
    ensures s'.At(source) && a'.At(analysis) && s.next + a.next < s'.next + a'.next
    ensures Interleaved(source, s'.next, analysis, a'.next)
    ensures SharedUpTo(source, s'.next, analysis, a'.next)
            <==> (Meet(source, s'.next, analysis, a'.next) ==>
                    Utf16Offset(source, s'.next) == Utf16Offset(analysis, a'.next))
    ensures s'.utf16 + a.utf16 + Utf16Offset(source, s.next) + Utf16Offset(analysis, a'.next)
            == a'.utf16 + s.utf16 + Utf16Offset(source, s'.next) + Utf16Offset(analysis, a.next)
  {
    OffsetsIncrease(source, s.next, |source|);
    OffsetsIncrease(analysis, a.next, |analysis|);
    if s.bytes == a.bytes {
      AdvanceBoth(source, s.next, analysis, a.next);
      return s.Next(source), a.Next(analysis);
    } else if s.bytes < a.bytes {
      AdvanceBehind(source, s.next, analysis, a.next);
      return s.Next(source), a;
    } else {
      AdvanceAhead(source, s.next, analysis, a.next);
      return s, a.Next(analysis);
    }
  }

  method CursorsAgree(source: string, analysis: string) returns (same: bool)
    requires ByteLen(source) == ByteLen(analysis)
    ensures same <==> SharedUpTo(source, |source|, analysis, |analysis|)
  {
    var s, a := Cursor(0, 0, 0), Cursor(0, 0, 0);
    while s.bytes < ByteLen(source) || a.bytes < ByteLen(analysis)
      invariant s.At(source) && a.At(analysis)
      invariant Interleaved(source, s.next, analysis, a.next)
      invariant s.utf16 + Utf16Offset(analysis, a.next) == a.utf16 + Utf16Offset(source, s.next)
      invariant SharedUpTo(source, s.next, analysis, a.next)
      decreases |source| + |analysis| - s.next - a.next
    {
      s, a := Advance(source, s, analysis, a);
      if s.bytes == a.bytes {
        if s.utf16 != a.utf16 {
          return false;
        }
        s, a := s.(utf16 := 0), a.(utf16 := 0);
      }
    }
    OffsetsIncrease(source, s.next, |source|);
    OffsetsIncrease(analysis, a.next, |analysis|);
    same := s.bytes == a.bytes && s.next == |source| && a.next == |analysis|;
  }

  method SourceViewsShareCoordinates(source: string, analysis: string) returns (same: bool)
    ensures same <==> ShareCoordinates(source, analysis)
  {
    if ByteLen(source) != ByteLen(analysis) {
      return false;
    }
    var sourceLines := LineIndex.New(source);
    var analysisLines := LineIndex.New(analysis);
    if sourceLines.lineStarts != analysisLines.lineStarts {
      return false;
    }
    same := CursorsAgree(source, analysis);
  }

  lemma SameLineAtSharedBoundary(a: string, i: nat, b: string, j: nat)
    requires LineStarts(a) == LineStarts(b)
    requires Meet(a, i, b, j)
    ensures LineNumber(a, i) == LineNumber(b, j)
    ensures ByteOffset(a, LineBegin(a, i)) == ByteOffset(b, LineBegin(b, j))
  {
    StartOfLine(a, i);
    StartOfLine(b, j);
    NextLineStart(a, i);
    OffsetsIncrease(a, LineBegin(a, i), i);
    LineIsLineNumber(b, j, LineNumber(a, i));
  }

  lemma SharedPlace(a: string, i: nat, b: string, j: nat)
    requires ShareCoordinates(a, b) && Meet(a, i, b, j)
    ensures Place(a, i) == Place(b, j)
  {
    SameLineAtSharedBoundary(a, i, b, j);
    assert Meet(a, LineBegin(a, i), b, LineBegin(b, j));
  }

  /** Views that pass the guard give every shared character boundary the same position. */
  lemma SharedBoundariesSharePositions(a: string, b: string, byte: nat, ia: LineIndex, ib: LineIndex)
    requires ShareCoordinates(a, b) && ByteLen(a) < U32_LIMIT
    requires IsBoundary(a, byte) && IsBoundary(b, byte)
    requires ia.text == a && ia.Valid() && ib.text == b && ib.Valid()
    ensures ia.Position(byte) == ib.Position(byte)
  {
    assert Place(a, FloorIndex(a, byte)) == Place(b, FloorIndex(b, byte)) by {
      SharedPlace(a, FloorIndex(a, byte), b, FloorIndex(b, byte));
    }
  }

  ghost predicate PlacesAgree(a: string, b: string) {
    forall m: nat, n: nat {:trigger Meet(a, m, b, n)} :: Meet(a, m, b, n) ==> Place(a, m) == Place(b, n)
  }

  lemma {:induction false} AgreeingPlacesShareUnits(a: string, i: nat, b: string, j: nat)
    requires LineStarts(a) == LineStarts(b) && PlacesAgree(a, b)
    requires Meet(a, i, b, j)
    ensures Utf16Offset(a, i) == Utf16Offset(b, j)
    decreases i
  {
    SameLineAtSharedBoundary(a, i, b, j);
    ByteOffsetInjective(a, LineBegin(a, i), i);
    ByteOffsetInjective(b, LineBegin(b, j), j);
    if LineBegin(a, i) < i {
      AgreeingPlacesShareUnits(a, LineBegin(a, i), b, LineBegin(b, j));
    } else if i > 0 {
      assert IsNewline(a[i - 1]) && IsNewline(b[j - 1]);
      AgreeingPlacesShareUnits(a, i - 1, b, j - 1);
    }
  }

  /** The guard is exact: it passes precisely when length, lines and every shared position agree. */
  lemma GuardIsExact(a: string, b: string)
    ensures ShareCoordinates(a, b)
            <==> ByteLen(a) == ByteLen(b) && LineStarts(a) == LineStarts(b) && PlacesAgree(a, b)
  {
    if ShareCoordinates(a, b) {
      forall m: nat, n: nat {:trigger Meet(a, m, b, n)} | Meet(a, m, b, n)
        ensures Place(a, m) == Place(b, n)
      {
        SharedPlace(a, m, b, n);
      }
    } else if LineStarts(a) == LineStarts(b) && PlacesAgree(a, b) {
      forall m: nat, n: nat {:trigger Meet(a, m, b, n)} | Meet(a, m, b, n)
        ensures Utf16Offset(a, m) == Utf16Offset(b, n)
      {
        AgreeingPlacesShareUnits(a, m, b, n);
      }
    }
  }
}
