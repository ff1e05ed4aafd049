/** The byte scanners that look for link destinations. */
module LinkScanner {
  import opened Text

  type u8 = x: int | 0 <= x < 0x100

  const BACKSLASH: u8 := 0x5C
  const CLOSE_BRACKET: u8 := 0x5D
  const OPEN_PAREN: u8 := 0x28
  const CLOSE_PAREN: u8 := 0x29
  const OPEN_ANGLE: u8 := 0x3C
  const CLOSE_ANGLE: u8 := 0x3E
  const SINGLE_QUOTE: u8 := 0x27
  const DOUBLE_QUOTE: u8 := 0x22

  /** A range of bytes; `end` is exclusive. */
  datatype Bytes = Bytes(start: nat, end: nat)

  // ----- Escapes -----

  /** How many backslashes stand right before `offset`, going no further back than `lower`. */
  function Backslashes(bytes: seq<u8>, lower: nat, offset: nat): nat
    requires lower <= offset <= |bytes|
  {
    if offset > lower && bytes[offset - 1] == BACKSLASH then 1 + Backslashes(bytes, lower, offset - 1) else 0
  }

  predicate ByteIsEscaped(bytes: seq<u8>, lower: nat, offset: nat)
    requires lower <= offset <= |bytes|
  {
    Backslashes(bytes, lower, offset) % 2 == 1
  }

  /** A scan from `at` that steps over each backslash and the byte after it lands on `offset`. */
  predicate Lands(bytes: seq<u8>, at: nat, offset: nat)
    requires offset <= |bytes|
    decreases offset - at
  {
    at == offset || (at < offset && Lands(bytes, if bytes[at] == BACKSLASH then at + 2 else at + 1, offset))
  }

  lemma {:induction false} EscapedFromNext(bytes: seq<u8>, at: nat, next: nat, offset: nat)
    requires at < next <= offset <= |bytes|
    requires if bytes[at] == BACKSLASH then next == at + 2 else next == at + 1
    ensures ByteIsEscaped(bytes, at, offset) <==> ByteIsEscaped(bytes, next, offset)
    decreases offset
  {
    if offset > next {
      EscapedFromNext(bytes, at, next, offset - 1);
    } else {
      assert Backslashes(bytes, at, at) == 0;
      assert Backslashes(bytes, at, at + 1) == if bytes[at] == BACKSLASH then 1 else 0;
    }
  }

  /** Counting backslashes backwards agrees with scanning forwards: a byte is escaped exactly when the scan steps over it. */
  lemma {:induction false} EscapedIsSteppedOver(bytes: seq<u8>, lower: nat, offset: nat)
    requires lower <= offset <= |bytes|
    ensures ByteIsEscaped(bytes, lower, offset) <==> !Lands(bytes, lower, offset)
    decreases offset - lower
  {
    if lower < offset {
      var next := if bytes[lower] == BACKSLASH then lower + 2 else lower + 1;
      if next <= offset {
        EscapedFromNext(bytes, lower, next, offset);
        EscapedIsSteppedOver(bytes, next, offset);
      } else {
        assert Backslashes(bytes, lower, lower) == 0;
      }
    }
  }

  // ----- Destinations -----

  predicate IsAsciiWhitespace(byte: u8) {
    byte == 0x20 || byte == 0x09 || byte == 0x0A || byte == 0x0C || byte == 0x0D
  }

  /** Saturating decrement. */
  function OneLess(n: nat): nat {
    if n > 0 then n - 1 else 0
  }

  /** What the bytes of a destination so far mean for the next one. */
  datatype Reading = Reading(escaped: bool, depth: nat, angled: bool, titleExpected: bool, quote: Option<u8>)

  /** One byte further. */
  function Read(r: Reading, byte: u8): Reading {
    if r.escaped then r.(escaped := false)
    else if byte == BACKSLASH then r.(escaped := true)
    else if r.quote.Some? then (if r.quote == Some(byte) then r.(quote := None) else r)
    else if r.angled then r.(angled := byte != CLOSE_ANGLE)
    else if r.depth == 1 && IsAsciiWhitespace(byte) then r.(titleExpected := true)
    else if r.titleExpected && (byte == SINGLE_QUOTE || byte == DOUBLE_QUOTE) then
      r.(quote := Some(byte), titleExpected := false)
    else
      var plain := r.(titleExpected := false);
      if byte == OPEN_ANGLE && r.depth == 1 then plain.(angled := true)
      else if byte == OPEN_PAREN then plain.(depth := r.depth + 1)
      else if byte == CLOSE_PAREN then plain.(depth := OneLess(r.depth))
      else plain
  }

  function ReadingAt(bytes: seq<u8>, start: nat, k: nat): Reading
    requires start <= k <= |bytes|
  {
    if k == start then Reading(false, 0, false, false, None) else Read(ReadingAt(bytes, start, k - 1), bytes[k - 1])
  }

  /** Byte `k` is neither escaped nor inside a title or an angle-bracketed destination. */
  predicate IsLive(bytes: seq<u8>, start: nat, k: nat)
    requires start <= k < |bytes|
  {
    var r := ReadingAt(bytes, start, k);
    !r.escaped && r.quote.None? && !r.angled
  }

  /** Reading forwards, a byte is escaped exactly when an odd number of backslashes stands before it. */
  lemma {:induction false} ReadingEscapes(bytes: seq<u8>, start: nat, k: nat)
    requires start <= k <= |bytes|
    ensures ReadingAt(bytes, start, k).escaped <==> ByteIsEscaped(bytes, start, k)
    decreases k
  {
    if start < k {
      ReadingEscapes(bytes, start, k - 1);
    }
  }

  /** Live opening parentheses before byte `k`, less live closing ones. */
  function Balance(bytes: seq<u8>, start: nat, k: nat): int
    requires start <= k <= |bytes|
  {
    if k == start then 0
    else
      Balance(bytes, start, k - 1)
      + if !IsLive(bytes, start, k - 1) then 0
        else if bytes[k - 1] == OPEN_PAREN then 1
        else if bytes[k - 1] == CLOSE_PAREN then -1
        else 0
  }

  /** The live parenthesis just before `end` is the first to balance the one at `start`. */
  predicate Closes(bytes: seq<u8>, start: nat, end: nat)
    requires start < end <= |bytes|
  {
    Balance(bytes, start, end) == 0 && forall k :: start < k < end ==> Balance(bytes, start, k) > 0
  }

  lemma ClosesOnce(bytes: seq<u8>, start: nat, e: nat, f: nat)
    requires start < e <= |bytes| && start < f <= |bytes| && Closes(bytes, start, e) && Closes(bytes, start, f)
    ensures e == f
  {
  }

  /** The scan's variables once it has come to byte `k` with the parenthesis still open. */
  predicate Open(bytes: seq<u8>, start: nat, k: nat, r: Reading)
    requires start <= k <= |bytes|
  {
    && r == ReadingAt(bytes, start, k) && Balance(bytes, start, k) == r.depth
    && forall j :: start < j <= k ==> Balance(bytes, start, j) > 0
  }

  lemma ReadOn(bytes: seq<u8>, start: nat, k: nat, r: Reading)
    requires start <= k < |bytes| && Open(bytes, start, k, r) && bytes[start] == OPEN_PAREN
    ensures var r' := Read(r, bytes[k]);
            && r' == ReadingAt(bytes, start, k + 1) && Balance(bytes, start, k + 1) == r'.depth
            && (r'.depth > 0 ==> Open(bytes, start, k + 1, r'))
            && (r'.depth == 0 ==> Closes(bytes, start, k + 1))
            && (r'.depth == 0 <==> k > start && IsLive(bytes, start, k) && bytes[k] == CLOSE_PAREN && r.depth == 1)
  {
    assert k > start ==> Balance(bytes, start, k) > 0;
    assert IsLive(bytes, start, k) <==> !r.escaped && r.quote.None? && !r.angled;
  }

  /** The end of the parenthesised destination that opens at `start`, if it closes inside the link. */
  method DestinationEnd(bytes: seq<u8>, start: nat, linkEnd: nat) returns (end: Option<nat>)
    requires start < linkEnd <= |bytes| && bytes[start] == OPEN_PAREN
    ensures end.Some? ==> start + 1 < end.value <= linkEnd && Closes(bytes, start, end.value)
    ensures end.Some? ==> bytes[end.value - 1] == CLOSE_PAREN && IsLive(bytes, start, end.value - 1)
    ensures end.None? ==> forall e :: start < e <= linkEnd ==> !Closes(bytes, start, e)
  {
    var depth: nat := 0;
    var candidate := start;
    var angleDestination, titleExpected := false, false;
    var titleQuote: Option<u8> := None;
    while candidate < linkEnd
      invariant start <= candidate
      invariant if candidate <= linkEnd
                then Open(bytes, start, candidate, Reading(false, depth, angleDestination, titleExpected, titleQuote))
                else forall j :: start < j <= linkEnd ==> Balance(bytes, start, j) > 0
      decreases linkEnd - candidate
    {
      var byte := bytes[candidate];
      ghost var r := Reading(false, depth, angleDestination, titleExpected, titleQuote);
      ReadOn(bytes, start, candidate, r);
      if byte == BACKSLASH {
        if candidate + 1 < linkEnd {
          ReadOn(bytes, start, candidate + 1, r.(escaped := true));
        }
        candidate := candidate + 2;
        continue;
      }
      if titleQuote.Some? {
        if byte == titleQuote.value {
          titleQuote := None;
        }
        candidate := candidate + 1;
        continue;
      }
      if angleDestination {
        angleDestination := byte != CLOSE_ANGLE;
        candidate := candidate + 1;
        continue;
      }
      if depth == 1 && IsAsciiWhitespace(byte) {
        titleExpected := true;
        candidate := candidate + 1;
        continue;
      }
      if titleExpected && (byte == SINGLE_QUOTE || byte == DOUBLE_QUOTE) {
        titleQuote, titleExpected := Some(byte), false;
        candidate := candidate + 1;
        continue;
      }
      titleExpected := false;
      candidate := candidate + 1;
      if byte == OPEN_ANGLE && depth == 1 {
        angleDestination := true;
      } else if byte == OPEN_PAREN {
        depth := depth + 1;
      } else if byte == CLOSE_PAREN {
        depth := OneLess(depth);
        if depth == 0 {
          return Some(candidate);
        }
      }
    }
    return None;
  }

  // ----- The destination that ends the link -----

  predicate Opens(bytes: seq<u8>, c: nat, linkEnd: nat)
    requires linkEnd <= |bytes|
  {
    c + 1 < linkEnd && bytes[c] == CLOSE_BRACKET && bytes[c + 1] == OPEN_PAREN
  }

  predicate ClosesBy(bytes: seq<u8>, start: nat, linkEnd: nat, e: nat)
    requires linkEnd <= |bytes|
  {
    start < e <= linkEnd && Closes(bytes, start, e)
  }

  /** Where the destination opened at `start` closes, if it does so inside the link. */
  ghost function EndOf(bytes: seq<u8>, start: nat, linkEnd: nat): (end: Option<nat>)
    requires linkEnd <= |bytes|
    ensures end.Some? ==> ClosesBy(bytes, start, linkEnd, end.value)
    ensures end.None? ==> forall e: nat :: !ClosesBy(bytes, start, linkEnd, e)
  {
    if exists e: nat :: ClosesBy(bytes, start, linkEnd, e) then
      var e: nat :| ClosesBy(bytes, start, linkEnd, e);
      Some(e)
    else None
  }

  /** Where the search goes on from `c`: past a destination that closes, else past what cannot open one. */
  ghost function GoOn(bytes: seq<u8>, c: nat, linkEnd: nat): (next: nat)
    requires linkEnd <= |bytes|
    ensures next > c
  {
    if !Opens(bytes, c, linkEnd) then c + 1
    else match EndOf(bytes, c + 1, linkEnd) case Some(end) => end case None => c + 2
  }

  /** The search that starts at `from` comes by `c`. */
  ghost predicate ComesBy(bytes: seq<u8>, from: nat, c: nat, linkEnd: nat)
    requires linkEnd <= |bytes|
    decreases c - from
  {
    from == c || (from < c && ComesBy(bytes, GoOn(bytes, from, linkEnd), c, linkEnd))
  }

  lemma {:induction false} ComesFurther(bytes: seq<u8>, from: nat, c: nat, linkEnd: nat, d: nat)
    requires linkEnd <= |bytes| && ComesBy(bytes, from, c, linkEnd) && c < d
    ensures ComesBy(bytes, from, d, linkEnd) <==> ComesBy(bytes, GoOn(bytes, c, linkEnd), d, linkEnd)
    decreases c - from
  {
    if from < c {
      ComesFurther(bytes, GoOn(bytes, from, linkEnd), c, linkEnd, d);
    }
  }

  /** The search comes by an opening whose destination ends with the link. */
  ghost predicate Fits(bytes: seq<u8>, link: Bytes, c: nat)
    requires link.end <= |bytes|
  {
    ComesBy(bytes, link.start, c, link.end) && Opens(bytes, c, link.end) && Closes(bytes, c + 1, link.end)
  }

  /** The destination of an inline link: the one, of those the search comes by, that ends with the link. */
  method InlineLinkDestinationRange(bytes: seq<u8>, link: Bytes) returns (range: Option<Bytes>)
    requires link.start <= link.end <= |bytes|
    ensures range.Some? ==>
              && link.start < range.value.start && range.value.start + 1 < range.value.end == link.end
              && bytes[range.value.end - 1] == CLOSE_PAREN
              && Fits(bytes, link, range.value.start - 1)
    ensures range.None? ==> forall c: nat :: !Fits(bytes, link, c)
  {
    var cursor := link.start;
    while cursor + 1 < link.end
      invariant link.start <= cursor && ComesBy(bytes, link.start, cursor, link.end)
      invariant forall c: nat :: c < cursor ==> !Fits(bytes, link, c)
      decreases link.end - cursor
    {
      ghost var next := GoOn(bytes, cursor, link.end);
      ComesFurther(bytes, link.start, cursor, link.end, next);
      forall c: nat | cursor < c < next
        ensures !Fits(bytes, link, c)
      {
        ComesFurther(bytes, link.start, cursor, link.end, c);
      }
      if bytes[cursor] != CLOSE_BRACKET || bytes[cursor + 1] != OPEN_PAREN {
        cursor := cursor + 1;
        continue;
      }
      var start := cursor + 1;
      var end := DestinationEnd(bytes, start, link.end);
      if end.Some? {
        assert ClosesBy(bytes, start, link.end, end.value);
        if end.value == link.end {
          return Some(Bytes(start, link.end));
        }
        ClosesOnce(bytes, start, end.value, next);
        cursor := end.value;
      } else {
        cursor := cursor + 2;
      }
    }
    return None;
  }
}
