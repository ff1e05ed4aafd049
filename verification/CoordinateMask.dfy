/** Filling excluded ranges with coordinate-equivalent whitespace. */
module CoordinateMask {
  import opened Sequences
  import opened Text
  import opened Characters
  import opened Coordinates
  import opened SourceViews
  import opened MarkdownMask

  const NBSP := '\U{00A0}'
  const IDEOGRAPHIC_SPACE := '\U{3000}'

  // ----- Text rewritten scalar by scalar -----

  /** `piece` may stand for `c`: same widths, terminators kept, and none introduced. */
  predicate Fits(c: char, piece: string) {
    && ByteLen(piece) == Utf8Width(c)
    && Utf16Len(piece) == Utf16Width(c)
    && (if IsNewline(c) then piece == [c] else forall x <- piece :: !IsNewline(x))
    && (|piece| == 1 || piece == [NBSP, NBSP])
  }

  ghost predicate Replaces(source: string, pieces: seq<string>) {
    |pieces| == |source| && forall k :: 0 <= k < |source| ==> Fits(source[k], pieces[k])
  }

  /** Where the stand-in for scalar `k` starts in the rewritten text. */
  ghost function Start(pieces: seq<string>, k: nat): nat
    requires k <= |pieces|
  {
    |Flatten(pieces[..k])|
  }

  lemma {:induction false} FlattenPrefix(pieces: seq<string>, k: nat)
    requires k <= |pieces|
    ensures Start(pieces, k) <= |Flatten(pieces)|
    ensures Flatten(pieces)[..Start(pieces, k)] == Flatten(pieces[..k])
  {
    assert pieces == pieces[..k] + pieces[k..];
    FlattenConcat(pieces[..k], pieces[k..]);
  }

  lemma StartStep(pieces: seq<string>, k: nat)
    requires k < |pieces|
    ensures Start(pieces, k + 1) == Start(pieces, k) + |pieces[k]| <= |Flatten(pieces)|
    ensures Flatten(pieces)[Start(pieces, k)..Start(pieces, k + 1)] == pieces[k]
  {
    FlattenStep(pieces, k);
    FlattenPrefix(pieces, k);
    FlattenPrefix(pieces, k + 1);
  }

  /** Every character boundary of the source survives, at the same byte and UTF-16 offset. */
  lemma {:induction false} StartOffsets(source: string, pieces: seq<string>, k: nat)
    requires Replaces(source, pieces) && k <= |source|
    ensures Start(pieces, k) <= |Flatten(pieces)|
    ensures ByteOffset(Flatten(pieces), Start(pieces, k)) == ByteOffset(source, k)
    ensures Utf16Offset(Flatten(pieces), Start(pieces, k)) == Utf16Offset(source, k)
  {
    var text := Flatten(pieces);
    FlattenPrefix(pieces, k);
    if k > 0 {
      StartOffsets(source, pieces, k - 1);
      StartStep(pieces, k - 1);
      OffsetsOfSlice(text, Start(pieces, k - 1), Start(pieces, k));
    }
  }

  lemma WholeStart(pieces: seq<string>)
    ensures Start(pieces, |pieces|) == |Flatten(pieces)|
  {
    assert pieces[..|pieces|] == pieces;
  }

  /** The characters at and around the seam between pieces `k - 1` and `k`. */
  lemma Seam(source: string, pieces: seq<string>, k: nat)
    requires Replaces(source, pieces) && 0 < k <= |source|
    ensures var text, at, piece := Flatten(pieces), Start(pieces, k), pieces[k - 1];
            && Fits(source[k - 1], piece)
            && at == Start(pieces, k - 1) + |piece| <= |text|
            && text[at - |piece|..at] == piece
            && (at < |text| <==> k < |source|)
            && (k < |source| ==> Fits(source[k], pieces[k]) && text[at] == pieces[k][0])
  {
    StartStep(pieces, k - 1);
    if k < |source| {
      StartStep(pieces, k);
      assert Fits(source[k], pieces[k]);
      assert Flatten(pieces)[Start(pieces, k)..Start(pieces, k + 1)][0] == pieces[k][0];
    } else {
      WholeStart(pieces);
    }
  }

  lemma LineStartSurvives(source: string, pieces: seq<string>, k: nat)
    requires Replaces(source, pieces) && 0 < k <= |source|
    ensures Start(pieces, k - 1) + |pieces[k - 1]| == Start(pieces, k) <= |Flatten(pieces)|
    ensures IsLineStart(Flatten(pieces), Start(pieces, k)) <==> IsLineStart(source, k)
    ensures |pieces[k - 1]| == 2 ==> !IsLineStart(Flatten(pieces), Start(pieces, k) - 1) && !IsLineStart(source, k)
  {
    var text, at, piece := Flatten(pieces), Start(pieces, k), pieces[k - 1];
    Seam(source, pieces, k);
    assert text[at - 1] == text[at - |piece|..at][|piece| - 1] == piece[|piece| - 1];
    assert piece[|piece| - 1] in piece && (k < |source| ==> pieces[k][0] in pieces[k]);
    if |piece| == 2 {
      assert text[at - 2] == text[at - |piece|..at][0] == NBSP;
    }
  }

  lemma {:induction false} LineStartsSurvive(source: string, pieces: seq<string>, k: nat)
    requires Replaces(source, pieces) && k <= |source|
    ensures Start(pieces, k) <= |Flatten(pieces)|
    ensures LineStartsUpTo(Flatten(pieces), Start(pieces, k)) == LineStartsUpTo(source, k)
  {
    if k > 0 {
      LineStartsSurvive(source, pieces, k - 1);
      LineStartSurvives(source, pieces, k);
      StartOffsets(source, pieces, k);
      LineStartsOfPiece(Flatten(pieces), Start(pieces, k - 1), Start(pieces, k));
    }
  }

  lemma LineStartsOfPiece(text: string, from: nat, to: nat)
    requires from < to <= from + 2 && to <= |text|
    requires to == from + 2 ==> !IsLineStart(text, from + 1)
    ensures LineStartsUpTo(text, to)
            == LineStartsUpTo(text, from) + if IsLineStart(text, to) then [ByteOffset(text, to)] else []
  {
  }

  /** A boundary of the rewritten text is a boundary of the source, or splits a pair of no-break spaces. */
  lemma {:induction false} BoundaryOrInsidePair(source: string, pieces: seq<string>, k: nat, n: nat)
    requires Replaces(source, pieces) && k <= |source| && n <= Start(pieces, k) <= |Flatten(pieces)|
    ensures IsBoundary(source, ByteOffset(Flatten(pieces), n))
            || (0 < n < |Flatten(pieces)| && Flatten(pieces)[n - 1] == Flatten(pieces)[n] == NBSP)
  {
    if n == Start(pieces, k) {
      StartOffsets(source, pieces, k);
      IndexOfOffset(source, k);
    } else {
      Seam(source, pieces, k);
      if n <= Start(pieces, k - 1) {
        BoundaryOrInsidePair(source, pieces, k - 1, n);
      } else {
        InsidePair(Flatten(pieces), Start(pieces, k), pieces[k - 1], n);
      }
    }
  }

  lemma InsidePair(text: string, at: nat, piece: string, n: nat)
    requires |piece| <= at <= |text| && text[at - |piece|..at] == piece
    requires |piece| == 1 || piece == [NBSP, NBSP]
    requires at - |piece| < n < at
    ensures text[n - 1] == text[n] == NBSP
  {
    assert text[at - 2] == piece[0] && text[at - 1] == piece[1];
  }

  /** Any such rewriting passes the coordinate guard. */
  lemma ReplacementSharesCoordinates(source: string, pieces: seq<string>)
    requires Replaces(source, pieces)
    ensures ShareCoordinates(source, Flatten(pieces))
    ensures ByteLen(Flatten(pieces)) == ByteLen(source) && Utf16Len(Flatten(pieces)) == Utf16Len(source)
  {
    var text := Flatten(pieces);
    WholeStart(pieces);
    StartOffsets(source, pieces, |source|);
    LineStartsSurvive(source, pieces, |source|);
    forall m: nat, n: nat {:trigger Meet(source, m, text, n)} | Meet(source, m, text, n)
      ensures Utf16Offset(source, m) == Utf16Offset(text, n)
    {
      StartOffsets(source, pieces, m);
      ByteOffsetInjective(text, n, Start(pieces, m));
    }
  }

  // ----- The mask itself -----

  /** The first single-byte, non-terminator scalar: the only place a separator can go. */
  function SeparatorIndex(source: string, from: nat): (k: Option<nat>)
    requires from <= |source|
    ensures k.Some? ==> from <= k.value < |source|
                        && !IsNewline(source[k.value]) && Utf8Width(source[k.value]) == 1
                        && forall j :: from <= j < k.value ==> IsNewline(source[j]) || Utf8Width(source[j]) != 1
    ensures k.None? ==> forall j :: from <= j < |source| ==> IsNewline(source[j]) || Utf8Width(source[j]) != 1
    decreases |source| - from
  {
    if from == |source| then None
    else if !IsNewline(source[from]) && Utf8Width(source[from]) == 1 then Some(from)
    else SeparatorIndex(source, from + 1)
  }

  function MaskScalar(c: char, separator: bool): string {
    if IsNewline(c) then [c]
    else if separator then "."
    else match Utf8Width(c)
      case 1 => " "
      case 2 => [NBSP]
      case 3 => [IDEOGRAPHIC_SPACE]
      case _ => [NBSP, NBSP]
  }

  lemma MaskScalarFits(c: char, separator: bool)
    requires separator ==> Utf8Width(c) == 1
    ensures Fits(c, MaskScalar(c, separator))
  {
    var piece := MaskScalar(c, separator);
    assert ByteOffset(piece, 1) == Utf8Width(piece[0]) && Utf16Offset(piece, 1) == Utf16Width(piece[0]);
    if |piece| == 2 {
      assert ByteOffset(piece, 2) == 4 && Utf16Offset(piece, 2) == 2;
    }
  }

  function MaskPieces(source: string, separatesProse: bool): (pieces: seq<string>)
    ensures |pieces| == |source|
  {
    seq(|source|, k requires 0 <= k < |source| =>
                    MaskScalar(source[k], separatesProse && SeparatorIndex(source, 0) == Some(k)))
  }

  method PushCoordinateMask(output: string, source: string, separatesProse: bool) returns (output': string)
    ensures output' == output + Flatten(MaskPieces(source, separatesProse))
  {
    var separatorOffset := if separatesProse then SeparatorIndex(source, 0) else None;
    ghost var pieces := MaskPieces(source, separatesProse);
    output' := output;
    for k := 0 to |source|
      invariant output' == output + Flatten(pieces[..k])
    {
      FlattenStep(pieces, k);
      output' := output' + MaskScalar(source[k], separatorOffset == Some(k));
    }
    assert pieces[..|source|] == pieces;
  }

  /** The range holding byte `b`, or the number of ranges when none does. */
  function RangeAt(ranges: seq<ExcludedRange>, b: nat): (i: nat)
    ensures i <= |ranges|
    ensures i < |ranges| ==> ranges[i].Contains(b)
    ensures forall j :: 0 <= j < i ==> !ranges[j].Contains(b)
  {
    if ranges == [] || ranges[0].Contains(b) then 0 else 1 + RangeAt(ranges[1..], b)
  }

  /** What stands for scalar `k` once every range is masked. */
  function Piece(source: string, ranges: seq<ExcludedRange>, k: nat): string
    requires k < |source|
  {
    var i := RangeAt(ranges, ByteOffset(source, k));
    if i == |ranges| then [source[k]]
    else
      var from := FloorIndex(source, ranges[i].start);
      var inside := Inside(source, ranges[i]);
      MaskScalar(source[k], ranges[i].separatesProse && from <= k && SeparatorIndex(inside, 0) == Some(k - from))
  }

  function Pieces(source: string, ranges: seq<ExcludedRange>): (pieces: seq<string>)
    ensures |pieces| == |source|
  {
    seq(|source|, k requires 0 <= k < |source| => Piece(source, ranges, k))
  }

  lemma PiecesReplace(source: string, ranges: seq<ExcludedRange>)
    ensures Replaces(source, Pieces(source, ranges))
  {
    forall k | 0 <= k < |source|
      ensures Fits(source[k], Piece(source, ranges, k))
    {
      var i := RangeAt(ranges, ByteOffset(source, k));
      if i == |ranges| {
        assert ByteOffset([source[k]], 1) == Utf8Width(source[k]) && Utf16Offset([source[k]], 1) == Utf16Width(source[k]);
      } else {
        var from := FloorIndex(source, ranges[i].start);
        var inside := Inside(source, ranges[i]);
        ByteOffsetInjective(source, from, k);
        MaskScalarFits(source[k], ranges[i].separatesProse && from <= k && SeparatorIndex(inside, 0) == Some(k - from));
      }
    }
  }

  predicate Usable(source: string, ranges: seq<ExcludedRange>) {
    Separated(ranges) && forall i :: 0 <= i < |ranges| ==> Retained(source, ranges[i])
  }

  lemma RangeAtIs(ranges: seq<ExcludedRange>, i: nat, b: nat)
    requires Separated(ranges) && i < |ranges| && ranges[i].Contains(b)
    requires forall j :: 0 <= j < |ranges| ==> ranges[j].start < ranges[j].end
    ensures RangeAt(ranges, b) == i
  {
    assert forall j :: 0 <= j < i ==> ranges[j].end < ranges[i].start;
  }

  function Inside(source: string, range: ExcludedRange): string
    requires range.start <= range.end
  {
    Slice(source, range.start, range.end)
  }

  lemma InsideIndex(source: string, range: ExcludedRange, k: nat)
    requires Retained(source, range) && k <= |source|
    ensures var from, to := FloorIndex(source, range.start), FloorIndex(source, range.end);
            && from < to == from + |Inside(source, range)|
            && (range.Contains(ByteOffset(source, k)) <==> from <= k < to)
            && (from <= k < to ==> Inside(source, range)[k - from] == source[k])
  {
    var from, to := FloorIndex(source, range.start), FloorIndex(source, range.end);
    ByteOffsetInjective(source, from, to);
    ByteOffsetInjective(source, k, from);
    ByteOffsetInjective(source, k, to);
  }

  /** Inside a range the pieces are the mask of the range's own text. */
  lemma PieceInside(source: string, ranges: seq<ExcludedRange>, i: nat, k: nat)
    requires Usable(source, ranges) && i < |ranges| && k < |source| && ranges[i].Contains(ByteOffset(source, k))
    ensures var r := ranges[i];
            var from, masks := FloorIndex(source, r.start), MaskPieces(Inside(source, r), r.separatesProse);
            from <= k < from + |masks| && Pieces(source, ranges)[k] == masks[k - from]
  {
    RangeAtIs(ranges, i, ByteOffset(source, k));
    InsideIndex(source, ranges[i], k);
  }

  lemma EqualSlice<T>(a: seq<T>, from: nat, b: seq<T>)
    requires from + |b| <= |a|
    requires forall m :: 0 <= m < |b| ==> a[from + m] == b[m]
    ensures a[from..from + |b|] == b
  {
  }

  lemma PieceInsideAt(source: string, ranges: seq<ExcludedRange>, i: nat, m: nat)
    requires Usable(source, ranges) && i < |ranges| && m < |Inside(source, ranges[i])|
    ensures var r := ranges[i];
            var from := FloorIndex(source, r.start);
            from + m < |source|
            && Pieces(source, ranges)[from + m] == MaskPieces(Inside(source, r), r.separatesProse)[m]
  {
    InsideIndex(source, ranges[i], FloorIndex(source, ranges[i].start));
    InsideIndex(source, ranges[i], FloorIndex(source, ranges[i].start) + m);
    PieceInside(source, ranges, i, FloorIndex(source, ranges[i].start) + m);
  }

  lemma PiecesInside(source: string, ranges: seq<ExcludedRange>, i: nat)
    requires Usable(source, ranges) && i < |ranges|
    ensures var r := ranges[i];
            var from, to := FloorIndex(source, r.start), FloorIndex(source, r.end);
            from < to && Pieces(source, ranges)[from..to] == MaskPieces(Inside(source, r), r.separatesProse)
  {
    var r := ranges[i];
    var from := FloorIndex(source, r.start);
    InsideIndex(source, r, from);
    forall m | 0 <= m < |Inside(source, r)|
      ensures Pieces(source, ranges)[from + m] == MaskPieces(Inside(source, r), r.separatesProse)[m]
    {
      PieceInsideAt(source, ranges, i, m);
    }
    EqualSlice(Pieces(source, ranges), from, MaskPieces(Inside(source, r), r.separatesProse));
  }

  /** Outside every range the pieces are the scalars themselves. */
  lemma {:induction false} PiecesOutside(source: string, ranges: seq<ExcludedRange>, from: nat, to: nat)
    requires from <= to <= |source|
    requires forall k :: from <= k < to ==> RangeAt(ranges, ByteOffset(source, k)) == |ranges|
    ensures Flatten(Pieces(source, ranges)[from..to]) == source[from..to]
  {
    if from < to {
      PiecesOutside(source, ranges, from, to - 1);
      var here := Pieces(source, ranges)[from..to];
      assert here[..|here| - 1] == Pieces(source, ranges)[from..to - 1];
      assert here[|here| - 1] == Piece(source, ranges, to - 1) == [source[to - 1]];
    } else {
      assert Pieces(source, ranges)[from..to] == [];
    }
  }

  lemma NoRangeBetween(ranges: seq<ExcludedRange>, i: nat, b: nat)
    requires Separated(ranges) && i <= |ranges|
    requires forall j :: 0 <= j < |ranges| ==> ranges[j].start < ranges[j].end
    requires i > 0 ==> ranges[i - 1].end <= b
    requires i < |ranges| ==> b < ranges[i].start
    ensures RangeAt(ranges, b) == |ranges|
  {
    assert forall j :: 0 <= j < i - 1 ==> ranges[j].end < ranges[i - 1].start;
    assert forall j :: i < j < |ranges| ==> ranges[i].end < ranges[j].start;
  }

  /** One stretch of kept text: up to the next range, or to the end of the source. */
  lemma CopyGap(source: string, ranges: seq<ExcludedRange>, i: nat, from: nat, to: nat)
    requires Usable(source, ranges) && i <= |ranges| && from <= to <= |source|
    requires i > 0 ==> ranges[i - 1].end <= ByteOffset(source, from)
    requires i < |ranges| ==> ByteOffset(source, to) <= ranges[i].start
    ensures Flatten(Pieces(source, ranges)[..to]) == Flatten(Pieces(source, ranges)[..from]) + source[from..to]
  {
    forall k | from <= k < to
      ensures RangeAt(ranges, ByteOffset(source, k)) == |ranges|
    {
      ByteOffsetInjective(source, from, k);
      ByteOffsetInjective(source, k, to);
      NoRangeBetween(ranges, i, ByteOffset(source, k));
    }
    PiecesOutside(source, ranges, from, to);
    var pieces := Pieces(source, ranges);
    assert pieces[..to] == pieces[..from] + pieces[from..to];
    FlattenConcat(pieces[..from], pieces[from..to]);
  }

  /** One round of the copying loop: the text up to the next range, then that range's mask. */
  lemma CopyThenMask(source: string, ranges: seq<ExcludedRange>, i: nat, copiedUntil: nat)
    requires Usable(source, ranges) && i < |ranges| && IsBoundary(source, copiedUntil)
    requires if i > 0 then copiedUntil == ranges[i - 1].end else copiedUntil == 0
    ensures copiedUntil <= ranges[i].start
    ensures var pieces, r := Pieces(source, ranges), ranges[i];
            Flatten(pieces[..FloorIndex(source, r.end)])
            == Flatten(pieces[..FloorIndex(source, copiedUntil)]) + Slice(source, copiedUntil, r.start)
               + Flatten(MaskPieces(Inside(source, r), r.separatesProse))
  {
    var pieces, r := Pieces(source, ranges), ranges[i];
    var from, start, end := FloorIndex(source, copiedUntil), FloorIndex(source, r.start), FloorIndex(source, r.end);
    assert i > 0 ==> ranges[i - 1].end < ranges[i].start;
    ByteOffsetInjective(source, from, start);
    CopyGap(source, ranges, i, from, start);
    PiecesInside(source, ranges, i);
    assert pieces[..end] == pieces[..start] + pieces[start..end];
    FlattenConcat(pieces[..start], pieces[start..end]);
  }

  lemma CopyTail(source: string, ranges: seq<ExcludedRange>, copiedUntil: nat)
    requires Usable(source, ranges) && IsBoundary(source, copiedUntil)
    requires if ranges != [] then copiedUntil == ranges[|ranges| - 1].end else copiedUntil == 0
    ensures var pieces, from := Pieces(source, ranges), FloorIndex(source, copiedUntil);
            Flatten(pieces) == Flatten(pieces[..from]) + source[from..]
  {
    var pieces, from := Pieces(source, ranges), FloorIndex(source, copiedUntil);
    CopyGap(source, ranges, |ranges|, from, |source|);
    assert pieces[..|source|] == pieces && source[from..|source|] == source[from..];
  }

  /** Copy the text around the merged ranges and mask each of them in turn. */
  method FillRanges(source: string, ranges: seq<ExcludedRange>) returns (masked: string)
    requires Usable(source, ranges)
    ensures masked == Flatten(Pieces(source, ranges))
  {
    ghost var pieces := Pieces(source, ranges);
    masked := "";
    var copiedUntil: nat := 0;
    IndexOfOffset(source, 0);
    assert pieces[..0] == [];
    for i := 0 to |ranges|
      invariant IsBoundary(source, copiedUntil)
      invariant if i > 0 then copiedUntil == ranges[i - 1].end else copiedUntil == 0
      invariant masked == Flatten(pieces[..FloorIndex(source, copiedUntil)])
    {
      var range := ranges[i];
      assert Retained(source, range);
      CopyThenMask(source, ranges, i, copiedUntil);
      masked := masked + Slice(source, copiedUntil, range.start);
      masked := PushCoordinateMask(masked, Inside(source, range), range.separatesProse);
      copiedUntil := range.end;
    }
    CopyTail(source, ranges, copiedUntil);
    masked := masked + source[FloorIndex(source, copiedUntil)..];
  }

  /**
    The masked document, as long as its source in bytes and in UTF-16 units;
    `ranges` are the merged exclusions whose pieces make up the result.
   */
  method MaskNonProse(source: string, excluded: seq<ExcludedRange>)
    returns (masked: string, ranges: seq<ExcludedRange>)
    ensures Usable(source, ranges)
    ensures Bytes(ranges) == RetainedBytes(source, excluded)
    ensures forall m <- ranges ::
              m.separatesProse <==> !(Covered(m) !! RetainedSeparatorBytes(source, excluded))
    ensures masked == Flatten(Pieces(source, ranges))
  {
    ranges := MergeRanges(source, excluded);
    assert Usable(source, ranges);
    if ranges == [] {
      CopyGap(source, ranges, 0, 0, |source|);
      assert Pieces(source, ranges)[..0] == [] && Pieces(source, ranges)[..|source|] == Pieces(source, ranges);
      return source, ranges;
    }
    masked := FillRanges(source, ranges);
    PiecesReplace(source, ranges);
    ReplacementSharesCoordinates(source, Pieces(source, ranges));
    assert ByteLen(masked) == ByteLen(source);
    assert Utf16Len(masked) == Utf16Len(source);
  }

  /** Text outside the ranges, and every line terminator, is kept as it is. */
  lemma MaskKeepsProse(source: string, ranges: seq<ExcludedRange>, k: nat)
    requires k < |source|
    requires IsNewline(source[k]) || forall j :: 0 <= j < |ranges| ==> !ranges[j].Contains(ByteOffset(source, k))
    ensures Pieces(source, ranges)[k] == [source[k]]
  {
    PiecesReplace(source, ranges);
    assert Fits(source[k], Pieces(source, ranges)[k]);
  }

  /** Inside a range only parser-skipped whitespace is left, except one `.` in a range that separates prose. */
  lemma MaskHidesTheRest(source: string, ranges: seq<ExcludedRange>, i: nat, k: nat)
    requires Usable(source, ranges) && i < |ranges| && k < |source| && ranges[i].Contains(ByteOffset(source, k))
    ensures FloorIndex(source, ranges[i].start) <= k
    ensures var separator := SeparatorIndex(Inside(source, ranges[i]), 0);
            if ranges[i].separatesProse && separator == Some(k - FloorIndex(source, ranges[i].start))
            then Pieces(source, ranges)[k] == "."
            else forall x <- Pieces(source, ranges)[k] :: IsParserWhitespace(x)
  {
    PieceInside(source, ranges, i, k);
    InsideIndex(source, ranges[i], k);
  }

  /** The masked document always passes the language server's coordinate guard. */
  lemma MaskedDocumentPassesGuard(source: string, ranges: seq<ExcludedRange>)
    ensures ShareCoordinates(source, Flatten(Pieces(source, ranges)))
  {
    PiecesReplace(source, ranges);
    ReplacementSharesCoordinates(source, Pieces(source, ranges));
  }
}
