/**
  Text as a sequence of Unicode scalar values, with the byte and UTF-16 offsets
  every other module is stated in.

  Widths follow RFC 3629 section 3 (UTF-8) and RFC 2781 section 2.1 (UTF-16).
  A byte offset is a character boundary exactly when it is the offset of some
  scalar index, so every byte-level question is answered by a scalar index.
 */
module Text {

  datatype Option<+T> = None | Some(value: T)

  const U32_LIMIT: nat := 0x1_0000_0000

  type u32 = x: int | 0 <= x < 0x1_0000_0000

  type i32 = x: int | -0x8000_0000 <= x < 0x8000_0000

  function Utf8Width(c: char): (w: nat)
    ensures 1 <= w <= 4
  {
    if c as int < 0x80 then 1
    else if c as int < 0x800 then 2
    else if c as int < 0x10000 then 3
    else 4
  }

  function Utf16Width(c: char): (w: nat)
    ensures 1 <= w <= 2
    ensures w == 2 <==> Utf8Width(c) == 4
  {
    if c as int < 0x10000 then 1 else 2
  }

  /** The byte offset of the scalar at index `k`. */
  function ByteOffset(s: string, k: nat): (n: nat)
    requires k <= |s|
  {
    if k == 0 then 0 else ByteOffset(s, k - 1) + Utf8Width(s[k - 1])
  }

  /** The number of UTF-16 code units before the scalar at index `k`. */
  function Utf16Offset(s: string, k: nat): (n: nat)
    requires k <= |s|
  {
    if k == 0 then 0 else Utf16Offset(s, k - 1) + Utf16Width(s[k - 1])
  }

  function ByteLen(s: string): nat {
    ByteOffset(s, |s|)
  }

  function Utf16Len(s: string): nat {
    Utf16Offset(s, |s|)
  }

  lemma {:induction false} OffsetsIncrease(s: string, i: nat, j: nat)
    requires i <= j <= |s|
    ensures ByteOffset(s, i) + (j - i) <= ByteOffset(s, j)
    ensures Utf16Offset(s, i) + (j - i) <= Utf16Offset(s, j)
    ensures Utf16Offset(s, j) - Utf16Offset(s, i) <= ByteOffset(s, j) - ByteOffset(s, i)
    decreases j
  {
    if i < j {
      OffsetsIncrease(s, i, j - 1);
    }
  }

  lemma ByteOffsetInjective(s: string, i: nat, j: nat)
    requires i <= |s| && j <= |s|
    ensures ByteOffset(s, i) < ByteOffset(s, j) <==> i < j
    ensures ByteOffset(s, i) == ByteOffset(s, j) <==> i == j
  {
    OffsetsIncrease(s, if i < j then i else j, if i < j then j else i);
  }

  /** The last scalar index whose byte offset is at most `b`. */
  function FloorIndex(s: string, b: nat): (k: nat)
    ensures k <= |s| && ByteOffset(s, k) <= b
    ensures k < |s| ==> b < ByteOffset(s, k + 1)
  {
    FloorBelow(s, b, |s|)
  }

  function FloorBelow(s: string, b: nat, k: nat): (r: nat)
    requires k <= |s|
    requires k < |s| ==> b < ByteOffset(s, k + 1)
    ensures r <= |s| && ByteOffset(s, r) <= b
    ensures r < |s| ==> b < ByteOffset(s, r + 1)
  {
    if ByteOffset(s, k) <= b then k else FloorBelow(s, b, k - 1)
  }

  predicate IsBoundary(s: string, b: nat) {
    ByteOffset(s, FloorIndex(s, b)) == b
  }

  lemma IndexOfOffset(s: string, k: nat)
    requires k <= |s|
    ensures FloorIndex(s, ByteOffset(s, k)) == k
    ensures IsBoundary(s, ByteOffset(s, k))
  {
    var f := FloorIndex(s, ByteOffset(s, k));
    if f < k {
      OffsetsIncrease(s, f + 1, k);
    } else {
      OffsetsIncrease(s, k, f);
    }
  }

  lemma BoundaryBound(s: string, b: nat)
    requires IsBoundary(s, b)
    ensures b <= ByteLen(s)
  {
    OffsetsIncrease(s, FloorIndex(s, b), |s|);
  }

  /** The scalars covering bytes `a..b`, both of them character boundaries. */
  function Slice(s: string, a: nat, b: nat): string
    requires a <= b
  {
    var i, j := FloorIndex(s, a), FloorIndex(s, b);
    if i <= j then s[i..j] else ""
  }

  lemma {:induction false} OffsetsOfPrefix(s: string, t: string, k: nat)
    requires k <= |s| && k <= |t| && s[..k] == t[..k]
    ensures ByteOffset(s, k) == ByteOffset(t, k)
    ensures Utf16Offset(s, k) == Utf16Offset(t, k)
  {
    if k > 0 {
      assert s[k - 1] == s[..k][k - 1] == t[..k][k - 1] == t[k - 1];
      assert s[..k - 1] == s[..k][..k - 1] == t[..k][..k - 1] == t[..k - 1];
      OffsetsOfPrefix(s, t, k - 1);
    }
  }

  lemma {:induction false} OffsetsOfConcat(a: string, b: string, k: nat)
    requires k <= |b|
    ensures ByteOffset(a + b, |a| + k) == ByteLen(a) + ByteOffset(b, k)
    ensures Utf16Offset(a + b, |a| + k) == Utf16Len(a) + Utf16Offset(b, k)
  {
    if k == 0 {
      assert (a + b)[..|a|] == a[..|a|];
      OffsetsOfPrefix(a + b, a, |a|);
    } else {
      OffsetsOfConcat(a, b, k - 1);
    }
  }

  lemma {:induction false} OffsetsOfSlice(s: string, i: nat, j: nat)
    requires i <= j <= |s|
    ensures ByteLen(s[i..j]) == ByteOffset(s, j) - ByteOffset(s, i)
    ensures Utf16Len(s[i..j]) == Utf16Offset(s, j) - Utf16Offset(s, i)
  {
    assert s[..i] + s[i..j] == s[..j];
    OffsetsOfConcat(s[..i], s[i..j], j - i);
    OffsetsOfPrefix(s, s[..j], j);
    OffsetsOfPrefix(s, s[..i], i);
  }
}
