/**
  Masking non-prose regions of a Markdown document without moving a coordinate.

  Which regions are excluded is decided elsewhere; every claim here holds for
  any set of ranges.
 */
module MarkdownMask {
  import opened Text

  datatype ExcludedRange = ExcludedRange(start: nat, end: nat, separatesProse: bool) {

    predicate Contains(b: nat) {
      start <= b < end
    }

    predicate Within(outer: ExcludedRange) {
      outer.start <= start && end <= outer.end
    }

    predicate KeyAtMost(other: ExcludedRange) {
      start < other.start || (start == other.start && end <= other.end)
    }
  }

  // ----- Merging -----

  predicate Retained(source: string, range: ExcludedRange) {
    && range.start < range.end <= ByteLen(source)
    && IsBoundary(source, range.start)
    && IsBoundary(source, range.end)
  }

  predicate Sorted(ranges: seq<ExcludedRange>) {
    forall i, j :: 0 <= i < j < |ranges| ==> ranges[i].KeyAtMost(ranges[j])
  }

  predicate Separated(ranges: seq<ExcludedRange>) {
    forall i, j :: 0 <= i < j < |ranges| ==> ranges[i].end < ranges[j].start
  }

  /** The bytes a range covers, the bytes any of several covers, and those covered by a prose separator. */
  ghost function Covered(range: ExcludedRange): set<nat> {
    set b: nat | b < range.end && range.Contains(b)
  }

  ghost function Bytes(ranges: seq<ExcludedRange>): set<nat> {
    set r <- ranges, b: nat | b < r.end && r.Contains(b) :: b
  }

  ghost function SeparatorBytes(ranges: seq<ExcludedRange>): set<nat> {
    set r <- ranges, b: nat | r.separatesProse && b < r.end && r.Contains(b) :: b
  }

  /** The separated form of `ranges`: the same bytes, and a separator exactly where one was merged in. */
  ghost predicate MergeOf(ranges: seq<ExcludedRange>, merged: seq<ExcludedRange>) {
    && Separated(merged)
    && Bytes(merged) == Bytes(ranges)
    && forall m <- merged :: m.separatesProse <==> !(Covered(m) !! SeparatorBytes(ranges))
  }

  lemma BytesOfAppend(ranges: seq<ExcludedRange>, range: ExcludedRange)
    ensures Bytes(ranges + [range]) == Bytes(ranges) + Covered(range)
    ensures SeparatorBytes(ranges + [range])
            == SeparatorBytes(ranges) + if range.separatesProse then Covered(range) else {}
    ensures SeparatorBytes(ranges) <= Bytes(ranges)
  {
    assert forall r :: r in ranges + [range] <==> r in ranges || r == range;
  }

  lemma BytesBelow(ranges: seq<ExcludedRange>, last: ExcludedRange)
    requires Separated(ranges + [last])
    ensures forall b <- Bytes(ranges) :: b < last.start
    ensures forall m <- ranges :: m.end < last.start
  {
    forall m <- ranges
      ensures m.end < last.start
    {
      var i :| 0 <= i < |ranges| && ranges[i] == m;
      assert (ranges + [last])[i] == m && (ranges + [last])[|ranges|] == last;
    }
  }

  function Insert(ranges: seq<ExcludedRange>, range: ExcludedRange): seq<ExcludedRange> {
    if ranges == [] || range.KeyAtMost(ranges[0]) then [range] + ranges
    else [ranges[0]] + Insert(ranges[1..], range)
  }

  lemma {:induction false} InsertPermutes(ranges: seq<ExcludedRange>, range: ExcludedRange)
    ensures multiset(Insert(ranges, range)) == multiset(ranges) + multiset{range}
    decreases |ranges|
  {
    if ranges != [] && !range.KeyAtMost(ranges[0]) {
      assert ranges == [ranges[0]] + ranges[1..];
      InsertPermutes(ranges[1..], range);
    }
  }

  lemma {:induction false} InsertSorts(ranges: seq<ExcludedRange>, range: ExcludedRange)
    requires Sorted(ranges)
    ensures Sorted(Insert(ranges, range))
    decreases |ranges|
  {
    if ranges != [] && !range.KeyAtMost(ranges[0]) {
      var rest := Insert(ranges[1..], range);
      InsertSorts(ranges[1..], range);
      InsertPermutes(ranges[1..], range);
      forall x <- rest
        ensures ranges[0].KeyAtMost(x)
      {
        assert x in multiset(rest);
        assert x in ranges[1..] || x == range;
      }
    }
  }

  /** An unstable sort by (start, end): callers learn only that the result is an ordered permutation. */
  method SortByKey(ranges: seq<ExcludedRange>) returns (sorted: seq<ExcludedRange>)
    ensures Sorted(sorted) && multiset(sorted) == multiset(ranges)
  {
    sorted := [];
    for i := 0 to |ranges|
      invariant Sorted(sorted) && multiset(sorted) == multiset(ranges[..i])
    {
      InsertSorts(sorted, ranges[i]);
      InsertPermutes(sorted, ranges[i]);
      sorted := Insert(sorted, ranges[i]);
      assert ranges[..i + 1] == ranges[..i] + [ranges[i]];
    }
    assert ranges[..|ranges|] == ranges;
  }

  method Retain(source: string, ranges: seq<ExcludedRange>) returns (kept: seq<ExcludedRange>)
    ensures forall r :: r in kept <==> r in ranges && Retained(source, r)
  {
    kept := [];
    for i := 0 to |ranges|
      invariant forall r :: r in kept <==> r in ranges[..i] && Retained(source, r)
    {
      if Retained(source, ranges[i]) {
        kept := kept + [ranges[i]];
      }
    }
  }

  /** Appending a range that starts past the last merged one. */
  lemma MergeAppends(ranges: seq<ExcludedRange>, merged: seq<ExcludedRange>, range: ExcludedRange)
    requires MergeOf(ranges, merged) && range.start < range.end
    requires forall i :: 0 <= i < |merged| ==> merged[i].end < range.start
    ensures MergeOf(ranges + [range], merged + [range])
  {
    BytesOfAppend(ranges, range);
    BytesOfAppend(merged, range);
    BytesBelow(merged, range);
    assert range.start in Covered(range);
    assert forall m <- merged :: Covered(m) !! Covered(range);
    assert Covered(range) !! Bytes(ranges);
  }

  function Grown(last: ExcludedRange, range: ExcludedRange): ExcludedRange {
    ExcludedRange(last.start,
                  if range.end > last.end then range.end else last.end,
                  last.separatesProse || range.separatesProse)
  }

  /** Extending the last merged range with one that starts inside it or right after it. */
  lemma MergeExtends(ranges: seq<ExcludedRange>, before: seq<ExcludedRange>, last: ExcludedRange, range: ExcludedRange)
    requires MergeOf(ranges, before + [last]) && range.start < range.end
    requires last.start <= range.start <= last.end
    ensures MergeOf(ranges + [range], before + [Grown(last, range)])
  {
    var grown := Grown(last, range);
    BytesBelow(before, last);
    assert Separated(before + [grown]) by {
      assert forall i :: 0 <= i < |before| ==> (before + [last])[i] == before[i] == (before + [grown])[i];
    }
    CoveredByGrown(last, range);
    BytesOfAppend(ranges, range);
    BytesOfAppend(before, last);
    BytesOfAppend(before, grown);
    forall m <- before + [grown]
      ensures m.separatesProse <==> !(Covered(m) !! SeparatorBytes(ranges + [range]))
    {
      if m in before {
        assert m in before + [last];
        assert Covered(m) !! Covered(range);
      } else {
        assert last in before + [last];
        assert Covered(range) * SeparatorBytes(ranges) <= Covered(last);
        assert range.start in Covered(range);
      }
    }
  }

  lemma CoveredByGrown(last: ExcludedRange, range: ExcludedRange)
    requires last.start <= range.start <= last.end && range.start < range.end
    ensures Covered(Grown(last, range)) == Covered(last) + Covered(range)
  {
    var grown := Grown(last, range);
    forall b
      ensures b in Covered(grown) <==> b in Covered(last) || b in Covered(range)
    {
      if 0 <= b {
        assert grown.Contains(b) <==> last.Contains(b) || range.Contains(b);
      }
    }
  }

  /** The retained inputs, as the ranges the merge works on. */
  ghost function RetainedBytes(source: string, ranges: seq<ExcludedRange>): set<nat> {
    set r <- ranges, b: nat | Retained(source, r) && b < r.end && r.Contains(b) :: b
  }

  ghost function RetainedSeparatorBytes(source: string, ranges: seq<ExcludedRange>): set<nat> {
    set r <- ranges, b: nat | Retained(source, r) && r.separatesProse && b < r.end && r.Contains(b) :: b
  }

  /**
    Pairwise separated ranges in order, on character boundaries, covering exactly
    the bytes of the retained inputs; a merged range separates prose exactly when
    some separating input lies in it.
   */
  method MergeRanges(source: string, ranges: seq<ExcludedRange>) returns (merged: seq<ExcludedRange>)
    ensures Separated(merged)
    ensures forall m <- merged :: Retained(source, m)
    ensures Bytes(merged) == RetainedBytes(source, ranges)
    ensures forall m <- merged ::
              m.separatesProse <==> !(Covered(m) !! RetainedSeparatorBytes(source, ranges))
  {
    var kept := Retain(source, ranges);
    var sorted := SortByKey(kept);
    assert forall r :: r in sorted <==> r in kept by {
      assert forall r :: r in sorted <==> r in multiset(sorted);
      assert forall r :: r in kept <==> r in multiset(kept);
    }
    merged := [];
    for i := 0 to |sorted|
      invariant MergeOf(sorted[..i], merged)
      invariant forall m <- merged :: Retained(source, m)
      invariant i > 0 ==> merged != [] && merged[|merged| - 1].start <= sorted[i - 1].start
      invariant i == 0 ==> merged == []
    {
      var range := sorted[i];
      assert range in sorted && Retained(source, range);
      assert sorted[..i + 1] == sorted[..i] + [range];
      if merged != [] && range.start <= merged[|merged| - 1].end {
        var last := merged[|merged| - 1];
        assert last in merged && sorted[i - 1].KeyAtMost(range);
        assert merged == merged[..|merged| - 1] + [last];
        MergeExtends(sorted[..i], merged[..|merged| - 1], last, range);
        merged := merged[..|merged| - 1] + [Grown(last, range)];
      } else {
        MergeAppends(sorted[..i], merged, range);
        merged := merged + [range];
      }
    }
    assert sorted[..|sorted|] == sorted;
    assert Bytes(sorted) == RetainedBytes(source, ranges);
    assert SeparatorBytes(sorted) == RetainedSeparatorBytes(source, ranges);
  }
}
